/**
 * SwarmPot: a trie whose nodes are shared between versions, loaded from a content-addressed store
 * when they are reached, and saved after every update.
 */
module PotMode {
  import opened Bits
  import opened Wrappers
  import opened Trie
  import opened TrieReload
  import opened Store
  import opened PotNodes
  import opened Requests
  import Ops = PotOps

  /** A node means what it holds in memory, or what its reference stands for, or both. */
  ghost predicate NodeOk(n: PotNode, trees: map<PotNode, Tree>, store: map<Ref, Record>)
    reads n
  {
    && n in trees
    && ForksOk(n.forks, trees)
    && (match n.pinned
        case Some(e) => trees[n] == Node(e, View(n.forks, trees))
        case None => n.forks == [] && (n.ref.None? ==> trees[n].Nil?))
    && (n.ref.Some? ==> Closed(n.ref.value, store) && Resolve(n.ref.value) == trees[n])
  }

  ghost predicate Arena(trees: map<PotNode, Tree>, store: map<Ref, Record>)
    reads trees.Keys
  {
    forall n | n in trees :: NodeOk(n, trees, store)
  }

  /** More nodes, with the meaning of the old ones unchanged. */
  ghost predicate Extends(a: map<PotNode, Tree>, b: map<PotNode, Tree>)
  {
    forall n | n in a :: n in b && b[n] == a[n]
  }

  lemma ViewExtends(fs: seq<CNode>, a: map<PotNode, Tree>, b: map<PotNode, Tree>)
    requires ForksOk(fs, a) && Extends(a, b)
    ensures ForksOk(fs, b) && View(fs, b) == View(fs, a)
  {
    assert forall c | c in fs :: CNodeOk(c, a) && CNodeOk(c, b);
  }

  lemma ViewOfNone(trees: map<PotNode, Tree>, rs: seq<RecordFork>)
    ensures ForksOk([], trees) && View([], trees) == ResolveForks(rs)[..0]
  {
  }

  lemma PrefixGrows<T>(s: seq<T>, i: nat)
    requires i < |s|
    ensures s[..i + 1] == s[..i] + [s[i]] && s[..|s|] == s
  {
  }

  lemma NextResolved(rs: seq<RecordFork>, i: nat)
    requires i < |rs|
    ensures ResolveForks(rs)[..i + 1] == ResolveForks(rs)[..i] + [ResolveFork(rs[i])]
    ensures i + 1 == |rs| ==> ResolveForks(rs)[..i + 1] == ResolveForks(rs)
  {
    hide ResolveForks, ResolveFork;
    PrefixGrows(ResolveForks(rs), i);
  }

  lemma ViewSnoc(fs: seq<CNode>, c: CNode, trees: map<PotNode, Tree>)
    requires ForksOk(fs, trees) && CNodeOk(c, trees)
    ensures ForksOk(fs + [c], trees)
    ensures View(fs + [c], trees) == View(fs, trees) + [Trie.Fork(c.at, trees[c.node], c.size)]
  {
    assert forall x | x in fs :: CNodeOk(x, trees);
  }

  lemma NodeOkExtends(n: PotNode, a: map<PotNode, Tree>, b: map<PotNode, Tree>,
      s: map<Ref, Record>, s': map<Ref, Record>)
    requires NodeOk(n, a, s) && Extends(a, b) && Grows(s, s')
    ensures NodeOk(n, b, s')
  {
    ViewExtends(n.forks, a, b);
    if n.ref.Some? {
      ClosedGrows(n.ref.value, s, s');
    }
  }

  /** Nothing that was in memory is written to again, and references are only added. */
  twostate predicate Immutable(ts: map<PotNode, Tree>)
    reads ts.Keys
  {
    forall n | n in ts ::
      (old(n.pinned).Some? ==> n.pinned == old(n.pinned) && n.forks == old(n.forks)) &&
      (old(n.ref).Some? ==> n.ref == old(n.ref))
  }

  class Pot {
    /** Whether the store answers its i-th request, a read or a write. */
    const answers: nat -> bool
    var requests: nat
    var store: map<Ref, Record>
    var root: PotNode
    ghost var trees: map<PotNode, Tree>

    /** The requests that went unanswered so far. */
    ghost function Faults(): nat
      reads this`requests
    {
      Unanswered(answers, requests)
    }

    /** A call fails if and only if the store left one of its requests unanswered. */
    twostate predicate Answered(ok: bool)
      reads this`requests
    {
      old(requests) <= requests && old(Faults()) <= Faults() && (ok <==> Faults() == old(Faults()))
    }

    /** One request to the store. */
    method Request() returns (ok: bool)
      modifies this`requests
      ensures requests == old(requests) + 1 && ok == answers(old(requests)) && Answered(ok)
    {
      ok := answers(requests);
      requests := requests + 1;
    }

    ghost predicate Valid()
      reads this, trees.Keys
    {
      Arena(trees, store) && StoreOk(store)
    }

    constructor (answers: nat -> bool)
      ensures this.answers == answers && requests == 0
      ensures Valid() && store == map[] && root in trees && trees[root] == Nil && root.pinned == None
      ensures fresh(trees.Keys)
    {
      var n := new PotNode();
      this.answers, requests := answers, 0;
      store, root, trees := map[], n, map[n := Nil];
    }

    /** A new root, read by its reference. */
    method Open(ref: Ref) returns (ok: bool)
      requires Valid() && ref in store
      modifies this
      ensures Valid() && Extends(old(trees), trees) && fresh(trees.Keys - old(trees.Keys)) && store == old(store)
      ensures if ok then fresh(root) && root in trees && trees[root] == Resolve(ref) && Ops.Loaded(root, trees) &&
              AllPacked(root)
              else root == old(root)
      ensures Answered(ok)
    {
      hide Arena, NodeOk, View, Unanswered;
      var n := NewPacked(ref);
      ok := Unpack(n);
      if ok {
        root := n;
      }
    }

    /** A new node that is known only by its reference. */
    method NewPacked(ref: Ref) returns (n: PotNode)
      requires Valid() && Closed(ref, store)
      modifies this`trees
      ensures Valid() && Extends(old(trees), trees) && trees == old(trees)[n := Resolve(ref)]
      ensures fresh(n) && n.ref == Some(ref) && n.NeedsUnpack()
    {
      n := new PotNode.Packed(ref);
      ghost var was := trees;
      trees := trees[n := Resolve(ref)];
      forall m | m in trees
        ensures NodeOk(m, trees, store)
      {
        if m != n { NodeOkExtends(m, was, trees, store, store); }
      }
    }

    lemma Member(n: PotNode)
      requires Valid() && n in trees
      ensures NodeOk(n, trees, store)
      ensures n.pinned.Some? ==> Ops.Loaded(n, trees)
      ensures trees[n].Nil? ==> !n.NeedsUnpack()
      ensures trees[n].Node? && !n.NeedsUnpack() ==> n.pinned.Some?
    {
    }

    /** No node is known by its reference only. */
    ghost predicate InMemory()
      reads this`trees, trees.Keys`pinned
    {
      forall n | n in trees && trees[n].Node? :: n.pinned.Some?
    }

    /** Reads a node by its reference. The read may fail; then nothing changes. */
    method Unpack(n: PotNode) returns (ok: bool)
      requires Valid() && n in trees
      modifies this`requests, this`trees, n`forks, n`pinned
      ensures Valid() && Extends(old(trees), trees) && fresh(trees.Keys - old(trees.Keys))
      ensures Answered(ok) && requests == old(requests) + if old(n.NeedsUnpack()) then 1 else 0
      ensures old(InMemory()) ==> InMemory() && requests == old(requests)
      ensures ok && trees[n].Node? ==> Ops.Loaded(n, trees)
      ensures !ok || !old(n.NeedsUnpack()) ==>
              n.forks == old(n.forks) && n.pinned == old(n.pinned) &&
              trees == old(trees)
      ensures ok && old(n.NeedsUnpack()) ==> AllPacked(n)
    {
      hide Arena, NodeOk, View, Unanswered;
      Member(n);
      ok := true;
      if n.NeedsUnpack() {
        WasPacked(n);
        ok := Request();
        if ok {
          Arrive(n);
        }
      }
    }

    /** The children of `n` are known by their references only. */
    ghost predicate AllPacked(n: PotNode)
      reads n, set c | c in n.forks :: c.node
    {
      forall c | c in n.forks :: IsPacked(c)
    }

    lemma WasPacked(n: PotNode)
      requires Valid() && n in trees && n.NeedsUnpack()
      ensures Closed(n.ref.value, store) && Resolve(n.ref.value) == trees[n] && !InMemory()
    {
      assert NodeOk(n, trees, store);
    }

    /**
     * A read of `n` arrives. By then another read may have filled the node: it keeps its entry and
     * its meaning, but its children are packed again.
     */
    method Arrive(n: PotNode)
      requires Valid() && n in trees && n.ref.Some? && n.ref.value in store
      modifies this`trees, n`forks, n`pinned
      ensures Valid() && Extends(old(trees), trees) && fresh(trees.Keys - old(trees.Keys))
      ensures Ops.Loaded(n, trees) && (old(n.pinned).Some? ==> n.pinned == old(n.pinned))
      ensures forall c | c in n.forks :: IsPacked(c) && fresh(c.node)
    {
      hide Arena, NodeOk, View, IsPacked;
      RecordOf(n);
      var rec := store[n.ref.value];
      var fs := MakeStubs(rec.forks);
      Fill(n, fs, rec.entry);
    }

    lemma RecordOf(n: PotNode)
      requires Valid() && n in trees && n.ref.Some? && n.ref.value in store
      ensures var rec := store[n.ref.value];
              && trees[n] == Node(rec.entry, ResolveForks(rec.forks)) &&
                 (forall f | f in rec.forks :: ForkClosed(f, store))
              && (n.pinned.Some? ==> n.pinned.value == rec.entry)
    {
      hide View;
      assert NodeOk(n, trees, store);
    }

    /** The content of a referenced node. */
    method Fill(n: PotNode, fs: seq<CNode>, e: Entry)
      requires Valid() && n in trees && n.ref.Some?
      requires ForksOk(fs, trees) && trees[n] == Node(e, View(fs, trees))
      modifies n`forks, n`pinned
      ensures Valid() && Ops.Loaded(n, trees) && n.forks == fs && n.pinned == Some(e)
    {
      hide View, ForksOk, StoreOk;
      assert NodeOk(n, trees, store);
      n.forks := fs;
      n.pinned := Some(e);
      assert NodeOk(n, trees, store);
      assert forall m | m in trees && m != n :: NodeOk(m, trees, store);
    }

    /** New packed nodes for the forks of a record. */
    method MakeStubs(rs: seq<RecordFork>) returns (fs: seq<CNode>)
      requires Valid() && forall f | f in rs :: ForkClosed(f, store)
      modifies this`trees
      ensures Valid() && Extends(old(trees), trees) && fresh(trees.Keys - old(trees.Keys))
      ensures ForksOk(fs, trees) && View(fs, trees) == ResolveForks(rs)
      ensures forall c | c in fs :: IsPacked(c) && fresh(c.node)
    {
      hide Arena, NodeOk, IsPacked, View, ResolveForks, ResolveFork, ForksOk, CNodeOk;
      fs := [];
      ViewOfNone(trees, rs);
      var i := 0;
      while i < |rs|
        invariant 0 <= i <= |rs|
        invariant Valid() && Extends(old(trees), trees) && fresh(trees.Keys - old(trees.Keys))
        invariant ForksOk(fs, trees) && View(fs, trees) == ResolveForks(rs)[..i]
        invariant forall c | c in fs :: c.node != null && IsPacked(c) && fresh(c.node)
      {
        assert rs[i] in rs;
        ghost var was := trees;
        var c := AddStub(rs[i]);
        ViewExtends(fs, was, trees);
        ViewSnoc(fs, c, trees);
        NextResolved(rs, i);
        fs := fs + [c];
        i := i + 1;
      }
    }

    /** The node behind `c` is known by its reference only. */
    ghost predicate IsPacked(c: CNode)
      reads c.node
    {
      c.node != null && c.node.pinned.None?
    }

    /** A new packed node for one fork of a record. */
    method AddStub(f: RecordFork) returns (c: CNode)
      requires Valid() && ForkClosed(f, store)
      modifies this`trees
      ensures Valid() && Extends(old(trees), trees) && fresh(trees.Keys - old(trees.Keys))
      ensures IsPacked(c) && fresh(c.node) && CNodeOk(c, trees)
      ensures Trie.Fork(c.at, trees[c.node], c.size) == ResolveFork(f)
    {
      hide Arena, NodeOk;
      var n := NewPacked(f.ref);
      c := CNode(f.at, n, f.size);
    }

    // -------------------------------------------------------------- find

    /** What a search changes: packed nodes on its path are unpacked, everything else stays. */
    twostate predicate OnlyUnpacks(ts: map<PotNode, Tree>, visited: set<Tree>)
      reads ts.Keys
    {
      forall n | n in ts ::
        (n.forks == old(n.forks) && n.pinned == old(n.pinned)) || (old(n.NeedsUnpack()) && ts[n] in visited)
    }

    /** What findNext says: `n` holds `k`, or `next` is its fork towards `k`, in memory. */
    ghost predicate Found(n: PotNode, at: nat, k: Key, next: CNode, isMatch: bool)
      requires n in trees && trees[n].Node?
      reads this, n, next.node
    {
      var po := FirstDiff(trees[n].entry.key, k, at);
      isMatch == (po >= DEPTH) &&
      (!isMatch ==>
        next.at == po && next.node == ForkOf(n.forks, po).node &&
        match ForkAt(trees[n].forks, po)
        case None => next.node == null
        case Some(f) => next.size >= 0 && next.node != null && next.node in trees && Ops.Loaded(next.node, trees) &&
                        f == Trie.Fork(po, trees[next.node], next.size))
    }

    /** The last fork of `n` from `at` on leads to a node in memory, or there is none. */
    ghost predicate LastLoaded(n: PotNode, at: nat)
      reads this`trees, n`forks, trees.Keys`pinned
    {
      var c := LastOf(n.forks, at).node;
      c == null || (c in trees && c.pinned.Some?)
    }

    /**
     * An update for `k` that enters `n` at bit `at` will find the last child of the node that holds
     * `k` in memory, or no such child. What it has to read on its way comes with packed children.
     */
    ghost predicate Intact(n: PotNode, at: nat, k: Key)
      requires n in trees
      reads this`trees, trees.Keys`forks, trees.Keys`pinned
      decreases trees[n]
    {
      if n.pinned.None? then Bare(trees[n], at, k)
      else
        var po := FirstDiff(n.pinned.value.key, k, at);
        if po >= DEPTH then LastLoaded(n, at)
        else
          var c := ForkOf(n.forks, po).node;
          c == null || c !in trees || !(trees[c] < trees[n]) || Intact(c, if po == 0 then 0 else po + 1, k)
    }

    /** On the way down the condition is the child's. */
    lemma IntactStep(n: PotNode, at: nat, k: Key)
      requires Valid() && Ops.Loaded(n, trees) && FirstDiff(trees[n].entry.key, k, at) < DEPTH
      ensures var po := FirstDiff(trees[n].entry.key, k, at);
              var c := ForkOf(n.forks, po).node;
              match ForkAt(trees[n].forks, po)
              case None => c == null && Intact(n, at, k)
              case Some(f) => c != null && c in trees && trees[c] == f.tree && trees[c].Node? &&
                              (Intact(n, at, k) <==> Intact(c, if po == 0 then 0 else po + 1, k))
    {
      hide Arena, View, ForkAt, ForkOf, Bare, LastLoaded;
      var po := FirstDiff(trees[n].entry.key, k, at);
      ForkOfView(n.forks, po, trees);
      ForkAtIn(trees[n].forks, po);
      if ForkOf(n.forks, po).node != null {
        assert CNodeOk(ForkOf(n.forks, po), trees);
      }
    }

    /** Right after a read only the tree matters. */
    lemma IntactPacked(n: PotNode, at: nat, k: Key)
      requires Valid() && Ops.Loaded(n, trees) && AllPacked(n)
      ensures Intact(n, at, k) <==> Bare(trees[n], at, k)
    {
      hide Arena, View, ForkAt, ForkOf, LastOf, LastFork;
      var po := FirstDiff(trees[n].entry.key, k, at);
      if po >= DEPTH {
        LastOfView(n.forks, at, trees);
      } else {
        IntactStep(n, at, k);
        ForkOfView(n.forks, po, trees);
      }
    }

    /** A delete of a key with nothing below its node finds nothing packed. */
    lemma BareIsIntact(n: PotNode, at: nat, k: Key)
      requires Valid() && n in trees && Bare(trees[n], at, k)
      ensures Intact(n, at, k)
      decreases trees[n]
    {
      hide Arena, View, ForkAt, ForkOf, LastOf, LastFork, FirstDiff, NodeOk;
      Member(n);
      if n.pinned.Some? {
        var po := FirstDiff(trees[n].entry.key, k, at);
        if po >= DEPTH {
          LastOfView(n.forks, at, trees);
        } else {
          IntactStep(n, at, k);
          ForkAtIn(trees[n].forks, po);
          if ForkAt(trees[n].forks, po).Some? {
            BareIsIntact(ForkOf(n.forks, po).node, if po == 0 then 0 else po + 1, k);
          }
        }
      }
    }

    /** Unpacking `c` changes nothing for an update that will enter it. */
    method UnpackNext(c: PotNode, ghost at: nat, ghost k: Key) returns (ok: bool)
      requires Valid() && c in trees && trees[c].Node?
      modifies this`requests, this`trees, c`forks, c`pinned
      ensures Valid() && Extends(old(trees), trees) && fresh(trees.Keys - old(trees.Keys))
      ensures Answered(ok)
      ensures old(InMemory()) ==> InMemory() && requests == old(requests)
      ensures !ok || !old(c.NeedsUnpack()) ==>
              c.forks == old(c.forks) && c.pinned == old(c.pinned) &&
              trees == old(trees)
      ensures ok ==> Ops.Loaded(c, trees)
      ensures Intact(c, at, k) <==> old(Intact(c, at, k))
    {
      hide Arena, View, InMemory, Bare, LastLoaded, Unanswered;
      ok := Unpack(c);
      if ok && old(c.NeedsUnpack()) {
        IntactPacked(c, at, k);
      }
    }

    /** The fork of `n` towards `k`, unpacked; or the news that `n` holds `k`. */
    method FindNext(n: PotNode, at: nat, k: Key) returns (ok: bool, next: CNode, isMatch: bool)
      requires Valid() && Ops.Loaded(n, trees)
      modifies this`requests, this`trees, trees.Keys`forks, trees.Keys`pinned
      ensures Valid() && Extends(old(trees), trees) && fresh(trees.Keys - old(trees.Keys))
      ensures Answered(ok)
      ensures old(InMemory()) ==> InMemory() && requests == old(requests)
      ensures OnlyUnpacks(old(trees), Step(trees[n], at, k)) && Ops.Loaded(n, trees)
      ensures ok ==> Found(n, at, k, next, isMatch)
      ensures Intact(n, at, k) <==> old(Intact(n, at, k))
    {
      hide Arena, View, InMemory, Bare, LastLoaded, Intact, ForkOf, ForkAt, Unanswered;
      var po := FirstDiff(n.pinned.value.key, k, at);
      ok, next, isMatch := true, CNode(DEPTH, null, 0), po >= DEPTH;
      if !isMatch {
        next := n.Fork(po, trees);
        IntactStep(n, at, k);
        if next.node != null {
          ForkAtIn(trees[n].forks, po);
          assert CNodeOk(next, trees);
          ok := UnpackNext(next.node, if po == 0 then 0 else po + 1, k);
          StillLoaded(n, old(trees));
          IntactStep(n, at, k);
        }
      }
    }

    /** A node in memory stays so when it is left alone and others only become known. */
    lemma StillLoaded(n: PotNode, was: map<PotNode, Tree>)
      requires Ops.Loaded(n, was) && Extends(was, trees)
      ensures Ops.Loaded(n, trees)
    {
      ViewExtends(n.forks, was, trees);
    }

    /** What a search does after the look-up of the next node. */
    lemma FoundIs(n: PotNode, at: nat, k: Key, next: CNode, isMatch: bool)
      requires Valid() && Ops.Loaded(n, trees) && Found(n, at, k, next, isMatch)
      ensures isMatch ==> Trie.Find(trees[n], at, k) == n.pinned
      ensures !isMatch && next.node == null ==> Trie.Find(trees[n], at, k) == None
      ensures !isMatch && next.node != null ==>
                && next.at >= 0 && next.node in trees && Ops.Loaded(next.node, trees) && trees[next.node] < trees[n]
                && Trie.Find(trees[n], at, k) == Trie.Find(trees[next.node], next.at, k)
                && Visited(trees[n], at, k) == {trees[next.node]} + Visited(trees[next.node], next.at, k)
    {
      hide Arena, View, ForkOf, FirstDiff;
      ForkAtIn(trees[n].forks, next.at);
      if !isMatch && next.node != null {
        VisitedStep(trees[n], at, k);
      }
    }

    /** find below `n`: `ok` is false if a read failed, `None` is the not-found error. */
    method Find(n: PotNode, at: nat, k: Key) returns (ok: bool, e: Option<Entry>)
      requires Valid() && n in trees && !n.NeedsUnpack()
      modifies this`requests, this`trees, trees.Keys`forks, trees.Keys`pinned
      ensures Valid() && Extends(old(trees), trees) && fresh(trees.Keys - old(trees.Keys))
      ensures Answered(ok)
      ensures old(InMemory()) ==> InMemory() && requests == old(requests)
      ensures OnlyUnpacks(old(trees), Visited(trees[n], at, k))
      ensures ok ==> e == Trie.Find(trees[n], at, k)
      decreases trees[n]
    {
      hide Arena, NodeOk, View, InMemory, Intact, Visited, Found, FirstDiff, ForkAt, Unanswered;
      Member(n);
      if n.pinned.None? {
        return true, None;
      }
      StepInVisited(trees[n], at, k);
      var next, isMatch;
      ok, next, isMatch := FindNext(n, at, k);
      if !ok {
        return false, None;
      }
      FoundIs(n, at, k, next, isMatch);
      if isMatch {
        return true, n.pinned;
      }
      if next.node == null {
        return true, None;
      }
      ok, e := Find(next.node, next.at, k);
    }

    // -------------------------------------------------------------- update

    /** A node that is being filled: not yet part of the structure. */
    ghost predicate AccReady(acc: PotNode)
      reads this, acc
    {
      acc !in trees && ForksOk(acc.forks, trees) && acc.ref == None
    }

    /** Old nodes keep their meaning, and nodes in memory stay so. Only `acc` is not new. */
    twostate predicate Grown(acc: PotNode)
      reads this, trees.Keys
    {
      Extends(old(trees), trees) && fresh(trees.Keys - old(trees.Keys) - {acc}) && (old(InMemory()) ==> InMemory())
    }

    /** The filled node becomes part of the structure and is not written to again. */
    ghost method Publish(acc: PotNode)
      requires Valid() && acc !in trees && ForksOk(acc.forks, trees) && acc.pinned.Some? && acc.ref == None
      modifies this`trees
      ensures trees == old(trees)[acc := Node(acc.pinned.value, View(acc.forks, old(trees)))]
      ensures Valid() && Extends(old(trees), trees) && Ops.Loaded(acc, trees)
      ensures old(InMemory()) ==> InMemory()
    {
      ghost var was := trees;
      trees := trees[acc := Node(acc.pinned.value, View(acc.forks, was))];
      ViewExtends(acc.forks, was, trees);
      forall m | m in trees
        ensures NodeOk(m, trees, store)
      {
        if m != acc { NodeOkExtends(m, was, trees, store, store); }
      }
    }

    /** An empty pot. */
    method NewEmpty() returns (r: PotNode)
      requires Valid()
      modifies this`trees
      ensures fresh(r) && r.pinned == None && r.ref == None && trees == old(trees)[r := Nil]
      ensures Valid() && Extends(old(trees), trees)
      ensures old(InMemory()) ==> InMemory()
    {
      r := new PotNode();
      ghost var was := trees;
      trees := trees[r := Nil];
      forall m | m in trees
        ensures NodeOk(m, trees, store)
      {
        if m != r { NodeOkExtends(m, was, trees, store, store); }
      }
    }

    /** What removal returns: a node filled from `acc`, or an empty one. */
    twostate predicate Built(acc: PotNode, new r: PotNode)
      reads this, r, acc
    {
      && r in trees && r !in old(trees) && Extends(old(trees), trees)
      && (if trees[r].Node? then r == acc && r.pinned.Some? && trees.Keys == old(trees.Keys) + {acc}
          else
            r != acc && fresh(r) && r.pinned.None? && r.ref.None? && trees.Keys == old(trees.Keys) + {r} &&
            acc !in trees && ForksOk(acc.forks, trees))
      && acc.ref == None
    }

    /** The fork right before the focus leads to the node it was entered from, which is in memory. */
    ghost predicate ParentLoaded(acc: PotNode, at: nat)
      reads this, acc, trees.Keys
    {
      forall c | c in acc.forks && c.at == at - 1 :: c.node in trees && c.node.pinned.Some?
    }

    method PullTail(acc: PotNode, n: PotNode, at: nat) returns (r: PotNode, ghost loaded: nat)
      requires Valid() && Ops.Loaded(n, trees) && AccReady(acc)
      modifies this`trees, acc`forks, acc`pinned
      ensures Valid() && Built(acc, r)
      ensures old(InMemory()) ==> InMemory()
      ensures trees[r] == Trie.PullTail(View(old(acc.forks), old(trees)), trees[n], at, loaded)
      decreases trees[n]
    {
      hide Trie.Wedge, Trie.Whirl, Arena, NodeOk, View, InMemory;
      var cm := Ops.FindFork(n, at, trees);
      LastForkIn(trees[n].forks, at);
      if cm.node == null || cm.node.pinned.None? {
        Ops.Wedge(acc, n, at, DEPTH, trees);
        Publish(acc);
        return acc, 0;
      }
      assert CNodeOk(cm, trees);
      Member(cm.node);
      Ops.Whirl(acc, n, at, cm.at, cm.node.pinned, trees);
      r, loaded := PullTail(acc, cm.node, cm.at + 1);
      loaded := loaded + 1;
    }

    method Pull(acc: PotNode, n: PotNode, at: nat) returns (r: PotNode, ghost loaded: nat)
      requires Valid() && Ops.Loaded(n, trees) && AccReady(acc)
      requires ParentLoaded(acc, at)
      modifies this`trees, acc`forks, acc`pinned
      ensures Valid() && Built(acc, r)
      ensures old(InMemory()) ==> InMemory()
      ensures trees[r] == Trie.Pull(View(old(acc.forks), old(trees)), trees[n], at, loaded)
      ensures loaded > 0 <==> old(LastLoaded(n, at))
      ensures loaded == 0 ==> !old(InMemory())
    {
      hide Trie.Wedge, Trie.Whirl, Trie.PullLeaf, Trie.PullTail, Arena, NodeOk, View, InMemory;
      var cm := Ops.FindFork(n, at, trees);
      LastForkIn(trees[n].forks, at);
      if cm.node != null && cm.node.pinned.Some? {
        assert CNodeOk(cm, trees);
        Member(cm.node);
        Ops.Wedge(acc, n, at, cm.at, trees);
        r, loaded := PullTail(acc, cm.node, cm.at + 1);
        loaded := loaded + 1;
        return;
      }
      loaded := if cm.node == null then 1 else 0;
      LastPacked(cm);
      r := PullLeaf(acc, n, at);
    }

    lemma LastPacked(cm: CNode)
      requires cm.node == null || (cm.node in trees && trees[cm.node].Node?)
      ensures cm.node != null && cm.node.pinned.None? ==> !InMemory()
    {
    }

    /** Nothing hangs below the removed focus, as far as can be seen: its parent takes its place. */
    method PullLeaf(acc: PotNode, n: PotNode, at: nat) returns (r: PotNode)
      requires Valid() && Ops.Loaded(n, trees) && AccReady(acc) && ParentLoaded(acc, at)
      modifies this`trees, acc`forks, acc`pinned
      ensures Valid() && Built(acc, r)
      ensures old(InMemory()) ==> InMemory()
      ensures trees[r] == Trie.PullLeaf(View(old(acc.forks), old(trees)), at)
    {
      hide Trie.Wedge, Trie.Truncate, Arena, NodeOk, View, InMemory;
      var j := at - 1;
      var parent := acc.Fork(j, trees);
      ForkAtIn(View(acc.forks, trees), j);
      acc.Truncate(j, trees);
      if parent.node == null {
        r := NewEmpty();
        ViewExtends(acc.forks, old(trees), trees);
      } else {
        Member(parent.node);
        Promote(acc, parent.node, j);
        r := acc;
      }
    }

    /** The node takes the place of the focus below it. */
    method Promote(acc: PotNode, p: PotNode, j: int)
      requires Valid() && Ops.Loaded(p, trees) && AccReady(acc)
      modifies this`trees, acc`forks, acc`pinned
      ensures Valid() && Built(acc, acc)
      ensures old(InMemory()) ==> InMemory()
      ensures trees[acc] == Node(trees[p].entry, Trie.Wedge(View(old(acc.forks), old(trees)), old(trees)[p], j, j))
    {
      hide Trie.Wedge, Arena, NodeOk, View, InMemory;
      Ops.Wedge(acc, p, j, j, trees);
      Publish(acc);
    }

    /** The result of updateInner: what the specification says, in nodes that are published. */
    ghost predicate Result(acc: PotNode, r: PotNode?, spec: Option<Tree>)
      reads this, acc, r
    {
      match spec
      case None => r == null && acc !in trees && ForksOk(acc.forks, trees)
      case Some(t) => r != null && r in trees && trees[r] == t && r.ref == None &&
                      (if t.Node? then r.pinned.Some? else r.pinned.None? && acc !in trees && ForksOk(acc.forks, trees))
    }

    method UpdateInner(acc: PotNode, n: PotNode, at: nat, k: Key, entry: Option<Entry>)
      returns (ok: bool, r: PotNode?, ghost loaded: nat)
      requires Valid() && n in trees && !n.NeedsUnpack()
      requires AccReady(acc) && ParentLoaded(acc, at)
      modifies this`requests, this`trees, trees.Keys`forks, trees.Keys`pinned, acc`forks, acc`pinned
      ensures Valid() && Grown(acc)
      ensures OnlyUnpacks(old(trees), Descent(trees[n], at, k))
      ensures r != null ==> r !in old(trees)
      ensures Answered(ok)
      ensures ok ==> Result(acc, r, Trie.UpdateInner(View(old(acc.forks), old(trees)), trees[n], at, k, entry, loaded))
      ensures loaded == 0 ==> !old(InMemory())
      ensures ok && entry.None? ==> (loaded > 0 <==> old(Intact(n, at, k)))
      decreases trees[n], 2
    {
      hide Trie.Whirl, Trie.Whack, Trie.Wedge, Trie.Pull, Arena, View, Descent, InMemory, Unanswered;
      loaded := 1;
      Member(n);
      if n.pinned.None? {
        ok, r := true, null;
        if entry.Some? {
          acc.pinned := entry;
          Publish(acc);
          r := acc;
        }
      } else {
        ok, r, loaded := UpdateNode(acc, n, at, k, entry);
      }
    }

    method UpdateNode(acc: PotNode, n: PotNode, at: nat, k: Key, entry: Option<Entry>)
      returns (ok: bool, r: PotNode?, ghost loaded: nat)
      requires Valid() && Ops.Loaded(n, trees)
      requires AccReady(acc) && ParentLoaded(acc, at)
      modifies this`requests, this`trees, trees.Keys`forks, trees.Keys`pinned, acc`forks, acc`pinned
      ensures Valid() && Grown(acc)
      ensures OnlyUnpacks(old(trees), Descent(trees[n], at, k))
      ensures r != null ==> r !in old(trees)
      ensures Answered(ok)
      ensures ok ==> Result(acc, r, Trie.UpdateInner(View(old(acc.forks), old(trees)), trees[n], at, k, entry, loaded))
      ensures loaded == 0 ==> !old(InMemory())
      ensures ok && entry.None? ==> (loaded > 0 <==> old(Intact(n, at, k)))
      decreases trees[n], 1
    {
      hide Trie.UpdateInner, Arena, View, Descent, InMemory, Result, Found, Intact, Unanswered;
      StepInDescent(trees[n], at, k);
      var next, isMatch;
      ghost var was := trees;
      ok, next, isMatch := FindNext(n, at, k);
      ViewExtends(acc.forks, was, trees);
      r, loaded := null, 1;
      if ok {
        ok, r, loaded := Dispatch(acc, n, at, k, entry, next, isMatch);
      }
    }

    /** updateInner after the look-up of the next node. */
    method Dispatch(acc: PotNode, n: PotNode, at: nat, k: Key, entry: Option<Entry>, next: CNode, isMatch: bool)
      returns (ok: bool, r: PotNode?, ghost loaded: nat)
      requires Valid() && Ops.Loaded(n, trees)
      requires AccReady(acc) && ParentLoaded(acc, at)
      requires Found(n, at, k, next, isMatch)
      modifies this`requests, this`trees, trees.Keys`forks, trees.Keys`pinned, acc`forks, acc`pinned
      ensures Valid() && Grown(acc)
      ensures OnlyUnpacks(old(trees), Descent(trees[n], at, k))
      ensures r != null ==> r !in old(trees)
      ensures Answered(ok)
      ensures ok ==> Result(acc, r, Trie.UpdateInner(View(old(acc.forks), old(trees)), trees[n], at, k, entry, loaded))
      ensures loaded == 0 ==> !old(InMemory())
      ensures ok && entry.None? ==> (loaded > 0 <==> old(Intact(n, at, k)))
      decreases trees[n], 0
    {
      hide Trie.UpdateInner, Arena, View, Descent, InMemory, Grown, OnlyUnpacks, Result, Intact, Unanswered;
      ForkAtIn(trees[n].forks, next.at);
      if isMatch {
        ok, r, loaded := UpdateMatch(acc, n, at, k, entry);
      } else if next.node == null {
        ok, r, loaded := UpdateEmpty(acc, n, at, next.at, k, entry);
      } else if next.at == 0 {
        ok, r, loaded := UpdateAtZero(acc, n, at, next, k, entry);
      } else {
        ok, r, loaded := UpdateBelow(acc, n, at, next, k, entry);
      }
    }

    /** The key lies below fork 0 of `n`. */
    method UpdateAtZero(acc: PotNode, n: PotNode, at: nat, next: CNode, k: Key, entry: Option<Entry>)
      returns (ok: bool, r: PotNode?, ghost loaded: nat)
      requires Valid() && Ops.Loaded(n, trees) && next.node != null && next.node in trees && trees[next.node] < trees[n]
      requires AccReady(acc) && ParentLoaded(acc, 0) && Found(n, at, k, next, false) && next.at == 0
      modifies this`requests, this`trees, trees.Keys`forks, trees.Keys`pinned, acc`forks, acc`pinned
      ensures Valid() && Grown(acc) && OnlyUnpacks(old(trees), Descent(trees[n], at, k))
      ensures r != null ==> r !in old(trees)
      ensures Answered(ok)
      ensures ok ==> Result(acc, r, Trie.UpdateInner(View(old(acc.forks), old(trees)), trees[n], at, k, entry, loaded))
      ensures loaded == 0 ==> !old(InMemory())
      ensures ok && entry.None? ==> (loaded > 0 <==> old(Intact(n, at, k)))
      decreases trees[next.node], 3
    {
      hide Trie.Wedge, Trie.Whack, Arena, View, Descent, InMemory, Intact, ForkOf, Unanswered;
      DescentStep(trees[n], at, k);
      IntactStep(n, at, k);
      assert Intact(n, at, k) <==> Intact(next.node, 0, k);
      var res;
      ok, res, loaded := UpdateInner(acc, next.node, 0, k, entry);
      r := null;
      if ok {
        Member(n);
        r := JoinAtZero(acc, n, res);
      }
    }

    /** The key lies below a later fork of `n`: the node there becomes the focus. */
    method UpdateBelow(acc: PotNode, n: PotNode, at: nat, next: CNode, k: Key, entry: Option<Entry>)
      returns (ok: bool, r: PotNode?, ghost loaded: nat)
      requires Valid() && Ops.Loaded(n, trees) && next.node != null && next.node in trees && trees[next.node] < trees[n]
      requires AccReady(acc) && Found(n, at, k, next, false) && next.at != 0
      modifies this`requests, this`trees, trees.Keys`forks, trees.Keys`pinned, acc`forks, acc`pinned
      ensures Valid() && Grown(acc) && OnlyUnpacks(old(trees), Descent(trees[n], at, k))
      ensures r != null ==> r !in old(trees)
      ensures Answered(ok)
      ensures ok ==> Result(acc, r, Trie.UpdateInner(View(old(acc.forks), old(trees)), trees[n], at, k, entry, loaded))
      ensures loaded == 0 ==> !old(InMemory())
      ensures ok && entry.None? ==> (loaded > 0 <==> old(Intact(n, at, k)))
      decreases trees[next.node], 3
    {
      hide Trie.Whirl, Arena, View, Descent, InMemory, Intact, ForkOf, Unanswered;
      DescentStep(trees[n], at, k);
      IntactStep(n, at, k);
      assert Intact(n, at, k) <==> Intact(next.node, next.at + 1, k);
      Ops.Whirl(acc, n, at, next.at, next.node.pinned, trees);
      ok, r, loaded := UpdateInner(acc, next.node, next.at + 1, k, entry);
    }

    /** The focus holds the key. */
    method UpdateMatch(acc: PotNode, n: PotNode, at: nat, k: Key, entry: Option<Entry>)
      returns (ok: bool, r: PotNode?, ghost loaded: nat)
      requires Valid() && Ops.Loaded(n, trees) && FirstDiff(trees[n].entry.key, k, at) >= DEPTH
      requires AccReady(acc) && ParentLoaded(acc, at)
      modifies this`trees, acc`forks, acc`pinned
      ensures ok && Valid() && Grown(acc) && OnlyUnpacks(old(trees), Descent(trees[n], at, k))
      ensures r != null ==> r !in old(trees)
      ensures Result(acc, r, Trie.UpdateInner(View(old(acc.forks), old(trees)), trees[n], at, k, entry, loaded))
      ensures loaded == 0 ==> !old(InMemory())
      ensures ok && entry.None? ==> (loaded > 0 <==> old(Intact(n, at, k)))
    {
      hide Trie.Whack, Trie.Pull, Arena, View, InMemory, LastLoaded;
      ok, r, loaded := true, null, 1;
      if entry.None? {
        r, loaded := Pull(acc, n, at);
      } else if entry.value.value != n.pinned.value.value {
        r := ReplaceAt(acc, n, at, entry.value);
      }
    }

    /** The focus has no fork where the key leaves it. */
    method UpdateEmpty(acc: PotNode, n: PotNode, at: nat, p: nat, k: Key, entry: Option<Entry>)
      returns (ok: bool, r: PotNode?, ghost loaded: nat)
      requires Valid() && Ops.Loaded(n, trees) && FirstDiff(trees[n].entry.key, k, at) == p < DEPTH
      requires AccReady(acc) && ForkAt(trees[n].forks, p).None?
      modifies this`trees, acc`forks, acc`pinned
      ensures ok && Valid() && Grown(acc) && OnlyUnpacks(old(trees), Descent(trees[n], at, k))
      ensures r != null ==> r !in old(trees)
      ensures Result(acc, r, Trie.UpdateInner(View(old(acc.forks), old(trees)), trees[n], at, k, entry, loaded))
      ensures loaded == 0 ==> !old(InMemory())
      ensures ok && entry.None? ==> (loaded > 0 <==> old(Intact(n, at, k)))
    {
      hide Trie.Whirl, Arena, View, InMemory, Intact, ForkOf;
      IntactStep(n, at, k);
      ok, r, loaded := true, null, 1;
      if entry.Some? {
        Ops.Whirl(acc, n, at, p, entry, trees);
        Publish(acc);
        r := acc;
      }
    }

    method ReplaceAt(acc: PotNode, n: PotNode, at: nat, e: Entry) returns (r: PotNode)
      requires Valid() && Ops.Loaded(n, trees) && AccReady(acc)
      modifies this`trees, acc`forks, acc`pinned
      ensures Valid() && Grown(acc)
      ensures r == acc && r in trees && r.pinned.Some? &&
              trees[r] == Node(e, Trie.Whack(View(old(acc.forks), old(trees)), trees[n], at, Node(e, []), DEPTH))
    {
      hide Trie.Whack, Arena, InMemory;
      var m := new PotNode();
      m.pinned := Some(e);
      assert View(m.forks, trees) == [];
      ghost var was := trees;
      Publish(m);
      ViewExtends(acc.forks, was, trees);
      Ops.Whack(acc, n, at, m, DEPTH, trees);
      Publish(acc);
      r := acc;
    }

    /** The subtree under fork 0 was updated to `res`: `n` with that fork replaced, or without it. */
    method JoinAtZero(acc: PotNode, n: PotNode, res: PotNode?) returns (r: PotNode)
      requires Valid() && Ops.Loaded(n, trees) && acc.ref == None
      requires res != null ==> res in trees && res != n && (trees[res].Node? ==> res.pinned.Some?)
      requires res == null || trees[res].Nil? ==>
        acc !in trees && ForksOk(acc.forks, trees) && (res != null ==> res.pinned.None?)
      modifies this`trees, acc`forks, acc`pinned
      ensures r !in old(trees)
      ensures Valid() && Grown(acc)
      ensures r in trees && r.pinned.Some? && r.ref == None
      ensures trees[r] == if res == null || trees[res].Nil? then Node(trees[n].entry, Trie.Wedge([], trees[n], 0, 0))
                          else Node(trees[n].entry, Trie.Whack([], trees[res], -1, trees[n], 0))
      ensures old(acc in trees) ==> acc.forks == old(acc.forks) && acc.pinned == old(acc.pinned)
    {
      hide Trie.Wedge, Trie.Whack, Trie.AppendRange, Arena, InMemory;
      if res == null || res.pinned.None? {
        WedgeForgets(View(acc.forks, trees), trees[n]);
        Ops.Wedge(acc, n, 0, 0, trees);
        Publish(acc);
        r := acc;
      } else {
        r := new PotNode();
        Member(res);
        assert View(r.forks, trees) == [];
        Ops.Whack(r, res, -1, n, 0, trees);
        Publish(r);
      }
    }
  }

  /** Wedging at bit 0 forgets whatever the node being filled held. */
  lemma WedgeForgets(fs: seq<Trie.Fork>, t: Tree)
    requires t.Node?
    ensures Trie.Wedge(fs, t, 0, 0) == Trie.Wedge([], t, 0, 0)
  {
  }

  /** The node that a search for `k` enters next. */
  ghost function Step(t: Tree, at: nat, k: Key): set<Tree>
  {
    if t.Nil? || FirstDiff(t.entry.key, k, at) >= DEPTH then {}
    else match ForkAt(t.forks, FirstDiff(t.entry.key, k, at))
      case None => {}
      case Some(c) => {c.tree}
  }

  /** The nodes that a search for `k` enters. */
  ghost function Visited(t: Tree, at: nat, k: Key): set<Tree>
    decreases t
  {
    if t.Nil? then {}
    else
      var po := FirstDiff(t.entry.key, k, at);
      if po >= DEPTH then {}
      else match ForkAt(t.forks, po)
        case None => {}
        case Some(c) => ForkAtIn(t.forks, po); {c.tree} + Visited(c.tree, po, k)
  }

  lemma VisitedStep(t: Tree, at: nat, k: Key)
    requires t.Node? && FirstDiff(t.entry.key, k, at) < DEPTH
    requires ForkAt(t.forks, FirstDiff(t.entry.key, k, at)).Some?
    ensures var po := FirstDiff(t.entry.key, k, at);
            var c := ForkAt(t.forks, po).value.tree;
            Visited(t, at, k) == {c} + Visited(c, po, k)
  {
  }

  lemma StepInVisited(t: Tree, at: nat, k: Key)
    ensures Step(t, at, k) <= Visited(t, at, k)
  {
  }

  /** The nodes that an update for `k` enters. */
  ghost function Descent(t: Tree, at: nat, k: Key): set<Tree>
    decreases t
  {
    if t.Nil? then {}
    else
      var po := FirstDiff(t.entry.key, k, at);
      if po >= DEPTH then {}
      else match ForkAt(t.forks, po)
        case None => {}
        case Some(c) => ForkAtIn(t.forks, po); {c.tree} + Descent(c.tree, if po == 0 then 0 else po + 1, k)
  }

  lemma DescentStep(t: Tree, at: nat, k: Key)
    requires t.Node? && FirstDiff(t.entry.key, k, at) < DEPTH
    requires ForkAt(t.forks, FirstDiff(t.entry.key, k, at)).Some?
    ensures var po := FirstDiff(t.entry.key, k, at);
            var c := ForkAt(t.forks, po).value.tree;
            Descent(t, at, k) == {c} + Descent(c, if po == 0 then 0 else po + 1, k)
  {
  }

  lemma StepInDescent(t: Tree, at: nat, k: Key)
    ensures Step(t, at, k) <= Descent(t, at, k)
  {
  }
}
