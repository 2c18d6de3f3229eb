/** Ordered iteration over objects, unpacking what it reaches. */
module PotIter {
  import opened Bits
  import opened Wrappers
  import opened Trie
  import opened TrieIter
  import opened PotNodes
  import opened Requests
  import opened PotMode
  import Ops = PotOps

  /** The fork that a CNode stands for; a null node is an empty tree. */
  ghost function Meaning(c: CNode, trees: map<PotNode, Tree>): Trie.Fork
    requires c.at >= 0 && c.size >= 0 && (c.node != null ==> c.node in trees)
  {
    Trie.Fork(c.at, if c.node == null then Nil else trees[c.node], c.size)
  }

  ghost predicate Iterable(c: CNode, trees: map<PotNode, Tree>)
  {
    c.at >= 0 && c.size >= 0 &&
      (c.node != null ==> c.node in trees && trees[c.node].Node? && Walkable(Meaning(c, trees)))
  }

  /** iterateInner: `log` is what the callback has seen; `ok` is false if a read failed. */
  method IterateInner(pot: Pot, c: CNode, k: Key, log: seq<Entry>, stop: seq<Entry> -> bool)
    returns (ok: bool, out: seq<Entry>, stopped: bool)
    requires pot.Valid() && Iterable(c, pot.trees)
    modifies pot`requests, pot`trees, pot.trees.Keys`forks, pot.trees.Keys`pinned
    ensures pot.Valid() && Extends(old(pot.trees), pot.trees) && fresh(pot.trees.Keys - old(pot.trees.Keys))
    ensures Immutable(old(pot.trees)) && pot.Answered(ok)
    ensures old(pot.InMemory()) ==> pot.InMemory() && pot.requests == old(pot.requests)
    ensures ok ==> (out, stopped) == Emit(WalkOr(Meaning(c, old(pot.trees)), k), log, stop)
    ensures log <= out <= log + WalkOr(Meaning(c, old(pot.trees)), k)
    decreases if c.node == null then 0 else 1, Meaning(c, pot.trees).tree, if c.at < DEPTH then DEPTH - c.at else 0, 1
  {
    hide Walk, Walkable, BackList, ForkList, Pot.Valid, Unanswered;
    ok, out, stopped := true, log, false;
    if c.node == null {
      return;
    }
    ok := pot.Unpack(c.node);
    if !ok {
      return;
    }
    ghost var f := Meaning(c, pot.trees);
    if c.size == 1 {
      out := log + [c.node.pinned.value];
      stopped := stop(out);
      WalkOne(f, k);
      EmitOne(c.node.pinned.value, log, stop);
      return;
    }
    WalkIsList(f, k);
    var forks;
    ok, forks := ListForks(pot, c, k);
    if ok {
      ok, out, stopped := IterateList(pot, c, f, forks, k, log, stop);
    }
  }

  lemma WalkOne(f: Trie.Fork, k: Key)
    requires Walkable(f) && f.size == 1
    ensures Walk(f, k) == [f.tree.entry]
  {
  }

  lemma EmitOne(e: Entry, log: seq<Entry>, stop: seq<Entry> -> bool)
    ensures Emit([e], log, stop) == (log + [e], stop(log + [e]))
  {
    assert [e][1..] == [];
  }

  ghost predicate ListOk(cs: seq<CNode>, fs: seq<Trie.Fork>, trees: map<PotNode, Tree>)
  {
    |cs| == |fs| && forall i :: 0 <= i < |cs| ==> Iterable(cs[i], trees) && fs[i] == Meaning(cs[i], trees)
  }

  /** The forks before the pivot's, the node itself behind the pivot, and the pivot's fork. */
  method ListForks(pot: Pot, c: CNode, k: Key) returns (ok: bool, forks: seq<CNode>)
    requires pot.Valid() && c.node != null && c.at >= 0 && c.size >= 0 && c.size != 1
    requires Ops.Loaded(c.node, pot.trees) && Walkable(Meaning(c, pot.trees))
    modifies pot`requests, pot`trees, pot.trees.Keys`forks, pot.trees.Keys`pinned
    ensures pot.Valid() && Extends(old(pot.trees), pot.trees) && fresh(pot.trees.Keys - old(pot.trees.Keys))
    ensures Immutable(old(pot.trees)) && pot.Answered(ok)
    ensures old(pot.InMemory()) ==> pot.InMemory() && pot.requests == old(pot.requests)
    ensures ok ==> ListOk(forks, ForkList(Meaning(c, old(pot.trees)), k), pot.trees)
  {
    hide Walkable, ForkList, Pot.Valid, PivotFork, Unanswered;
    ghost var f := Meaning(c, pot.trees);
    var po := FirstDiff(c.node.pinned.value.key, k, c.at + 1);
    var cn := c.node.Fork(po, pot.trees);
    ghost var was := pot.trees;
    PivotFound(f, po, cn, c.node.forks, was);
    ok, forks := true, [];
    if cn.node != null {
      assert CNodeOk(cn, pot.trees);
      ok := pot.Unpack(cn.node);
    }
    if ok {
      pot.Member(c.node);
      PivotExtends(f, po, cn, was, pot.trees);
      forks := BuildList(c, f, po, cn, k, pot.trees);
    }
  }

  /** `cn` is the fork of the node at the bit where the pivot leaves it. */
  ghost predicate PivotFork(f: Trie.Fork, po: nat, cn: CNode, trees: map<PotNode, Tree>)
  {
    f.tree.Node? && cn.at == po && cn.size >= 0 && (cn.node != null ==> CNodeOk(cn, trees)) &&
    Meaning(cn, trees) == match ForkAt(f.tree.forks, po) case None => Trie.Fork(po, Nil, 0) case Some(g) => g
  }

  lemma PivotFound(f: Trie.Fork, po: nat, cn: CNode, forks: seq<CNode>, trees: map<PotNode, Tree>)
    requires f.tree.Node? && ForksOk(forks, trees) && View(forks, trees) == f.tree.forks && cn.at == po
    requires match ForkAt(View(forks, trees), po)
             case None => cn.node == null && cn.size == 0
             case Some(g) => cn in forks && cn.node in trees && g == Trie.Fork(cn.at, trees[cn.node], cn.size)
    ensures PivotFork(f, po, cn, trees)
  {
    if cn.node != null {
      assert CNodeOk(cn, trees);
    }
  }

  lemma PivotExtends(f: Trie.Fork, po: nat, cn: CNode, a: map<PotNode, Tree>, b: map<PotNode, Tree>)
    requires PivotFork(f, po, cn, a) && Extends(a, b)
    ensures PivotFork(f, po, cn, b)
  {
  }

  method BuildList(c: CNode, ghost f: Trie.Fork, po: nat, cn: CNode, k: Key, ghost trees: map<PotNode, Tree>)
    returns (forks: seq<CNode>)
    requires c.node != null && c.at >= 0 && Ops.Loaded(c.node, trees) && f.tree == trees[c.node] && f.at == c.at
    requires Walkable(f) && f.size != 1 && po == FirstDiff(f.tree.entry.key, k, f.at + 1) && PivotFork(f, po, cn, trees)
    ensures ListOk(forks, ForkList(f, k), trees)
  {
    hide Walkable, Walk, BackList;
    WalkIsList(f, k);
    var between := Ops.Slice(c.node, c.at + 1, po, trees);
    var own := Ops.NewAt(po, c.node, trees);
    forks := between + [own, cn];
    SameList(forks, between, own, cn, ForkList(f, k), trees);
  }

  lemma SameList(forks: seq<CNode>, between: seq<CNode>, own: CNode, cn: CNode, fs: seq<Trie.Fork>,
      trees: map<PotNode, Tree>)
    requires forks == between + [own, cn] && ForksOk(between, trees) && CNodeOk(own, trees)
    requires cn.at >= 0 && cn.size >= 0 && (cn.node != null ==> CNodeOk(cn, trees))
    requires fs == View(between, trees) + [Meaning(own, trees), Meaning(cn, trees)]
    requires forall g | g in fs :: g.tree.Node? ==> Walkable(g)
    ensures ListOk(forks, fs, trees)
  {
    forall i | 0 <= i < |forks|
      ensures Iterable(forks[i], trees) && fs[i] == Meaning(forks[i], trees)
    {
      if i < |between| { assert CNodeOk(between[i], trees); }
      assert fs[i] in fs;
    }
  }

  /** The loop over the list, from its end. */
  method IterateList(pot: Pot, c: CNode, ghost f: Trie.Fork, forks: seq<CNode>, k: Key, log: seq<Entry>,
      stop: seq<Entry> -> bool)
    returns (ok: bool, out: seq<Entry>, stopped: bool)
    requires pot.Valid() && f.tree.Node? && Walkable(f) && f.size != 1 && f.at == c.at
    requires ListOk(forks, ForkList(f, k), pot.trees)
    modifies pot`requests, pot`trees, pot.trees.Keys`forks, pot.trees.Keys`pinned
    ensures pot.Valid() && Extends(old(pot.trees), pot.trees) && fresh(pot.trees.Keys - old(pot.trees.Keys))
    ensures Immutable(old(pot.trees)) && pot.Answered(ok)
    ensures old(pot.InMemory()) ==> pot.InMemory() && pot.requests == old(pot.requests)
    ensures ok ==> (out, stopped) == Emit(Walk(f, k), log, stop)
    ensures log <= out <= log + Walk(f, k)
    decreases 1, f.tree, if c.at < DEPTH then DEPTH - c.at else 0, 0
  {
    hide Walk, Walkable, WalkOr, BackList, Emit, ForkList, Pot.Valid, Unanswered;
    ghost var fs := ForkList(f, k);
    WalkIsList(f, k);
    ok, out, stopped := true, log, false;
    var i := |forks|;
    assert fs[..i] == fs;
    while i > 0
      invariant 0 <= i <= |forks| && ok && !stopped
      invariant pot.Valid() && Extends(old(pot.trees), pot.trees) && fresh(pot.trees.Keys - old(pot.trees.Keys))
      invariant Immutable(old(pot.trees)) && pot.Answered(ok)
      invariant old(pot.InMemory()) ==> pot.InMemory() && pot.requests == old(pot.requests)
      invariant Emit(Walk(f, k), log, stop) == Emit(BackList(fs[..i], k), out, stop)
      invariant log <= out && out + BackList(fs[..i], k) == log + Walk(f, k)
    {
      ghost var seen := out;
      i := i - 1;
      var g := forks[i];
      assert fs[i] in fs;
      ListExtends(g, old(pot.trees), pot.trees);
      BackLast(fs, i, k);
      EmitJoin(WalkOr(fs[i], k), BackList(fs[..i], k), out, stop);
      ok, out, stopped := IterateInner(pot, g, k, out, stop);
      FurtherOn(log, Walk(f, k), seen, WalkOr(fs[i], k), BackList(fs[..i], k), out);
      if !ok || stopped {
        return;
      }
      AllShown(WalkOr(fs[i], k), seen, stop);
    }
    EmitEnd(k, out, stop);
  }

  /** From `seen`, some of `head` was shown, and then there is `tail`. */
  lemma FurtherOn(log: seq<Entry>, all: seq<Entry>, seen: seq<Entry>, head: seq<Entry>, tail: seq<Entry>,
      out: seq<Entry>)
    requires log <= seen <= out <= seen + head && seen + (head + tail) == log + all
    ensures log <= out <= log + all
    ensures out == seen + head ==> out + tail == log + all
  {
    assert seen + (head + tail) == seen + head + tail;
  }

  lemma AllShown(w: seq<Entry>, log: seq<Entry>, stop: seq<Entry> -> bool)
    ensures !Emit(w, log, stop).1 ==> Emit(w, log, stop).0 == log + w
  {
    EmitIsPrefix(w, log, stop);
  }

  lemma EmitEnd(k: Key, log: seq<Entry>, stop: seq<Entry> -> bool)
    ensures Emit(BackList([], k), log, stop) == (log, false)
  {
  }

  lemma ListExtends(c: CNode, a: map<PotNode, Tree>, b: map<PotNode, Tree>)
    requires Iterable(c, a) && Extends(a, b)
    ensures Iterable(c, b) && Meaning(c, b) == Meaning(c, a)
  {
  }
}
