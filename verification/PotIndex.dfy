/** Index: a mutable trie behind a find / put / delete / iterate / save interface. */
module PotIndex {
  import opened Bits
  import opened Wrappers
  import opened Trie
  import opened TrieLaws
  import opened TrieUpdate
  import opened TrieMap
  import opened TrieReload
  import opened TrieIter
  import opened Store
  import StoreMod = Store
  import opened PotNodes
  import opened Requests
  import opened PotMode
  import Ops = PotOps
  import Persister
  import PotIter

  /** How a call ends: normally, because the index is closed, because nothing is there, or by an I/O error. */
  datatype Status = Done | Closed | NotFound | Failed

  class Index {
    const mode: Pot
    var root: PotNode
    var closed: bool

    ghost predicate Valid()
      reads this, mode, mode.trees.Keys
    {
      && mode.Valid()
      && root in mode.trees && !root.NeedsUnpack() && RootOk(mode.trees[root])
      && mode.root in mode.trees && !mode.root.NeedsUnpack() && mode.trees[mode.root] == mode.trees[root]
    }

    /** The tree that the index stands for, and its map. */
    ghost function Tree(): Trie.Tree
      requires Valid()
      reads this, mode, mode.trees.Keys
    {
      mode.trees[root]
    }

    ghost function Map(): map<Key, Value>
      requires Valid()
      reads this, mode, mode.trees.Keys
    {
      Abs(Tree())
    }

    constructor Create(mode: Pot)
      requires mode.Valid() && mode.root in mode.trees && mode.trees[mode.root] == Nil
      modifies mode`trees
      ensures this.mode == mode && Valid() && !closed && Tree() == Nil && Map() == map[]
      ensures Extends(old(mode.trees), mode.trees) && fresh(mode.trees.Keys - old(mode.trees.Keys))
    {
      var n := new PotNode();
      this.mode, root, closed := mode, n, false;
      new;
      ghost var was := mode.trees;
      mode.trees := mode.trees[n := Nil];
      forall m | m in mode.trees
        ensures NodeOk(m, mode.trees, mode.store)
      {
        if m != n { NodeOkExtends(m, was, mode.trees, mode.store, mode.store); }
      }
      mode.Member(mode.root);
      NilHasNothing();
    }

    /** An index over the root that was just read. */
    constructor Over(mode: Pot)
      requires mode.Valid() && mode.root in mode.trees && !mode.root.NeedsUnpack() && RootOk(mode.trees[mode.root])
      ensures this.mode == mode && root == mode.root && Valid() && !closed && Tree() == mode.trees[mode.root]
    {
      this.mode, root, closed := mode, mode.root, false;
    }

    method Close()
      modifies this`closed
      ensures closed
    {
      closed := true;
    }

    method Size() returns (n: nat)
      requires Valid()
      ensures n == if closed then 0 else |Map()|
    {
      SizeRefines(Tree());
      if closed || root.pinned.None? {
        n := 0;
      } else {
        mode.Member(root);
        var c := Ops.NewAt(-1, root, mode.trees);
        n := c.size;
      }
    }

    method Find(k: Key) returns (status: Status, e: Option<Entry>)
      requires Valid()
      modifies mode`requests, mode`trees, mode.trees.Keys`forks, mode.trees.Keys`pinned
      ensures Valid() && Extends(old(mode.trees), mode.trees) && Tree() == old(Tree())
      ensures mode.OnlyUnpacks(old(mode.trees), Visited(Tree(), 0, k))
      ensures closed <==> status == Closed
      ensures mode.Answered(status != Failed) && (old(mode.InMemory()) ==> mode.requests == old(mode.requests))
      ensures status == Done ==> k in Map() && e == Some(Entry(k, Map()[k]))
      ensures status == NotFound ==> k !in Map()
    {
      hide Trie.Find, Abs, RootOk, Arena, Unanswered;
      status, e := Closed, None;
      if !closed {
        mode.Member(root);
        mode.Member(mode.root);
        FindRefines(Tree(), k);
        var ok;
        ok, e := mode.Find(root, 0, k);
        mode.Member(root);
        mode.Member(mode.root);
        status := if !ok then Failed else if e.None? then NotFound else Done;
      }
    }

    /** iterate: `out` is what the callback saw; `stop` is the callback. */
    method Iterate(prefix: seq<bool>, pivot: Key, stop: seq<Entry> -> bool) returns (status: Status, out: seq<Entry>)
      requires Valid()
      modifies mode`requests, mode`trees, mode.trees.Keys`forks, mode.trees.Keys`pinned
      ensures Valid() && Extends(old(mode.trees), mode.trees) && Tree() == old(Tree()) && Immutable(old(mode.trees))
      ensures closed <==> status == Closed
      ensures mode.Answered(status != Failed) && (old(mode.InMemory()) ==> mode.requests == old(mode.requests))
      ensures status == NotFound ==> FindNode(Tree(), 0, prefix).None?
      ensures status == Done ==>
        var m := FindNode(Tree(), 0, prefix);
        m.Some? && m.value.Node? && Walkable(Start(m.value, prefix)) &&
        out == Emit(Walk(Start(m.value, prefix), pivot), [], stop).0
      ensures var m := FindNode(Tree(), 0, prefix);
        out == [] || (m.Some? && m.value.Node? && Walkable(Start(m.value, prefix)) &&
          out <= Walk(Start(m.value, prefix), pivot))
    {
      hide Walk, Walkable, FindNode, RootOk, Arena, Emit, Unanswered;
      status, out := Closed, [];
      if !closed {
        mode.Member(root);
        mode.Member(mode.root);
        FoundWalkable(Tree(), prefix, pivot);
        var ok, m := LocateNode(mode, root, 0, prefix);
        mode.Member(root);
        mode.Member(mode.root);
        status := Failed;
        if ok && m == null {
          status := NotFound;
        } else if ok {
          mode.Member(m);
          ok, out := IterateFrom(mode, m, prefix, pivot, stop);
          mode.Member(root);
          mode.Member(mode.root);
          status := if ok then Done else Failed;
        }
      }
    }

    /** The reference under which the whole tree can be opened again. */
    method Save() returns (status: Status, ref: Option<Ref>)
      requires Valid()
      modifies mode`requests, mode`store, mode.trees.Keys`ref
      ensures Valid() && Grows(old(mode.store), mode.store) && Tree() == old(Tree())
      ensures status == Done ==>
        ref.Some? && Resolve(ref.value) == Tree() && StoreMod.Closed(ref.value, mode.store)
      ensures status == if closed then Closed else if status == Done then Done else Failed
      ensures mode.Answered(status != Failed || Tree().Nil?) && (status == Done ==> Tree().Node?)
    {
      status, ref := Closed, None;
      if !closed {
        mode.Member(root);
        mode.Member(mode.root);
        status := Failed;
        if root.pinned.Some? {
          var ok := Persister.Save(mode, mode.root);
          mode.Member(root);
          mode.Member(mode.root);
          if ok {
            status, ref := Done, mode.root.ref;
          }
        }
      }
    }

    method Update(k: Key, v: Option<Value>) returns (status: Status, ghost loaded: nat)
      requires Valid()
      modifies this`root, mode, mode.trees.Keys
      ensures Valid() && Extends(old(mode.trees), mode.trees) && fresh(mode.trees.Keys - old(mode.trees.Keys))
      ensures Grows(old(mode.store), mode.store) && Immutable(old(mode.trees))
      ensures status == if old(closed) then Closed else if status == Done then Done else Failed
      ensures mode.Answered(status != Failed)
      ensures status != Done ==> root == old(root) && Tree() == old(Tree())
      ensures root != old(root) || Tree() != old(Tree()) ==> root == mode.root && Persisted(mode, root)
      ensures status == Done ==> Tree() == NewRoot(old(Tree()), Trie.Update(old(Tree()), k, EntryFor(k, v), loaded))
      ensures status == Done && (v.Some? || k !in old(Map()) || old(mode.InMemory())) ==>
              Map() == Updated(old(Tree()), k, v)
      ensures status == Done && v.None? ==> (loaded > 0 <==> old(mode.Intact(root, 0, k)))
      ensures status == Done && v.None? && k in old(Map()) ==>
              (Map() == old(Map()) - {k} <==> old(mode.Intact(root, 0, k)))
      ensures old(mode.InMemory()) ==> mode.InMemory()
    {
      hide Trie.Update, Abs, Updated, RootOk, Arena, Pot.InMemory, Pot.Intact, Unanswered;
      status, loaded := Closed, 1;
      if !closed {
        ghost var t := Tree();
        mode.Member(root);
        mode.Member(mode.root);
        WholeOrBare(mode, root, k);
        var ok, r;
        ok, r, loaded := UpdateMode(mode, root, k, EntryFor(k, v));
        if ok && r != null {
          root := r;
        }
        mode.Member(root);
        mode.Member(mode.root);
        status := if ok then Done else Failed;
        UpdatedIs(t, k, v, loaded);
        DeletedIs(t, k, v, loaded);
      }
    }
  }

  lemma WholeOrBare(mode: Pot, n: PotNode, k: Key)
    requires mode.Valid() && n in mode.trees
    ensures Bare(mode.trees[n], 0, k) ==> mode.Intact(n, 0, k)
  {
    if Bare(mode.trees[n], 0, k) {
      mode.BareIsIntact(n, 0, k);
    }
  }

  lemma DeletedIs(t: Tree, k: Key, v: Option<Value>, loaded: nat)
    requires RootOk(t)
    ensures v.None? && k in Abs(t) ==>
              (Abs(NewRoot(t, Trie.Update(t, k, EntryFor(k, v), loaded))) == Abs(t) - {k} <==>
                loaded > 0 || Bare(t, 0, k))
  {
    hide Trie.Update, Abs, Bare, RootOk;
    if v.None? && k in Abs(t) {
      DeletedIff(t, k, loaded);
    }
  }

  method IterateFrom(mode: Pot, m: PotNode, prefix: seq<bool>, pivot: Key,
      stop: seq<Entry> -> bool) returns (ok: bool, out: seq<Entry>)
    requires mode.Valid() && m in mode.trees && Ops.Loaded(m, mode.trees)
    requires mode.trees[m].Node? && Walkable(Start(mode.trees[m], prefix))
    modifies mode`requests, mode`trees, mode.trees.Keys`forks, mode.trees.Keys`pinned
    ensures mode.Valid() && Extends(old(mode.trees), mode.trees) && fresh(mode.trees.Keys - old(mode.trees.Keys))
    ensures Immutable(old(mode.trees)) && mode.Answered(ok)
    ensures old(mode.InMemory()) ==> mode.InMemory() && mode.requests == old(mode.requests)
    ensures ok ==> out == Emit(Walk(Start(old(mode.trees[m]), prefix), pivot), [], stop).0
    ensures out <= Walk(Start(old(mode.trees[m]), prefix), pivot)
  {
    hide Walk, Walkable, Arena, Emit, Unanswered;
    var c := Ops.NewAt(|prefix|, m, mode.trees);
    var stopped;
    ok, out, stopped := PotIter.IterateInner(mode, c, pivot, [], stop);
  }

  lemma FoundWalkable(t: Tree, p: seq<bool>, k: Key)
    requires RootOk(t)
    ensures var m := FindNode(t, 0, p); m.Some? ==> m.value.Node? && Walkable(Start(m.value, p))
  {
    hide Walk, Walkable, Valid, Entries;
    if t.Node? {
      IterateEmits(t, p, k);
    }
  }

  /** findNode on objects; a null node is the not-found error. */
  method LocateNode(mode: Pot, n: PotNode, at: nat, p: seq<bool>) returns (ok: bool, m: PotNode?)
    requires mode.Valid() && n in mode.trees && !n.NeedsUnpack()
    modifies mode`requests, mode`trees, mode.trees.Keys`forks, mode.trees.Keys`pinned
    ensures mode.Valid() && Extends(old(mode.trees), mode.trees) && fresh(mode.trees.Keys - old(mode.trees.Keys))
    ensures Immutable(old(mode.trees)) && mode.Answered(ok)
    ensures old(mode.InMemory()) ==> mode.InMemory() && mode.requests == old(mode.requests)
    ensures ok ==> match FindNode(mode.trees[n], at, p)
                   case None => m == null
                   case Some(t) => m != null && m in mode.trees && mode.trees[m] == t && Ops.Loaded(m, mode.trees)
    decreases mode.trees[n]
  {
    hide Arena, NodeOk, View, ForkAt, FindNode, FirstDiff, Pot.InMemory, Pot.AllPacked, Pot.Intact, ForkOf, Unanswered;
    mode.Member(n);
    FindNodeStep(mode.trees[n], at, p);
    ok, m := true, null;
    if n.pinned.Some? {
      var po := FirstDiff(n.pinned.value.key, p, at);
      if po < DEPTH && po < |p| {
        var c := n.Fork(po, mode.trees);
        ForkAtIn(mode.trees[n].forks, po);
        if c.node != null {
          assert CNodeOk(c, mode.trees);
          ok := mode.Unpack(c.node);
          if ok {
            ok, m := LocateNode(mode, c.node, po, p);
          }
        }
      } else {
        m := n;
      }
    }
  }

  lemma FindNodeStep(t: Tree, at: nat, p: seq<bool>)
    ensures t.Nil? ==> FindNode(t, at, p) == None
    ensures t.Node? ==>
      var po := FirstDiff(t.entry.key, p, at);
      FindNode(t, at, p) == if po < DEPTH && po < |p| then
                              match ForkAt(t.forks, po) case None => None case Some(c) => FindNode(c.tree, po, p)
                            else Some(t)
  {
    hide FirstDiff, ForkAt;
  }

  /** A node that is empty, or has a reference that stands for its tree and leads to all of it in the store. */
  ghost predicate Persisted(mode: Pot, r: PotNode)
    reads mode`store, mode`trees, r`ref
  {
    r in mode.trees &&
      (mode.trees[r].Node? ==>
         r.ref.Some? && StoreMod.Closed(r.ref.value, mode.store) && Resolve(r.ref.value) == mode.trees[r])
  }

  /** SwarmPot.update: the new version is saved before it becomes the root. */
  method UpdateMode(mode: Pot, root: PotNode, k: Key, e: Option<Entry>)
      returns (ok: bool, r: PotNode?, ghost loaded: nat)
    requires mode.Valid() && root in mode.trees && !root.NeedsUnpack()
    modifies mode, mode.trees.Keys
    ensures mode.Valid() && Extends(old(mode.trees), mode.trees) && fresh(mode.trees.Keys - old(mode.trees.Keys))
    ensures Grows(old(mode.store), mode.store) && Immutable(old(mode.trees))
    ensures old(mode.InMemory()) ==> mode.InMemory() && loaded > 0
    ensures ok && e.None? ==> (loaded > 0 <==> old(mode.Intact(root, 0, k)))
    ensures mode.Answered(ok)
    ensures if ok && r != null then mode.root == r && Persisted(mode, r) else mode.root == old(mode.root)
    ensures ok ==> var spec := Trie.Update(mode.trees[root], k, e, loaded);
                   if r == null then spec == None
                   else r in mode.trees && spec == Some(mode.trees[r]) && !r.NeedsUnpack()
  {
    hide Trie.UpdateInner, Arena, NodeOk, Pot.InMemory, Descent, Pot.Intact, StoreOk, Unanswered;
    var acc := new PotNode();
    assert View(acc.forks, mode.trees) == [];
    ok, r, loaded := mode.UpdateInner(acc, root, 0, k, e);
    if ok && r != null {
      ok := PackRoot(mode, r);
    }
  }

  /** The new version is saved, and then it becomes the root. */
  method PackRoot(mode: Pot, r: PotNode) returns (ok: bool)
    requires mode.Valid() && r in mode.trees && !r.NeedsUnpack()
    modifies mode`requests, mode`store, mode`root, mode.trees.Keys`ref
    ensures mode.Valid() && Grows(old(mode.store), mode.store) && Persister.RefsKept(mode.trees) && mode.Answered(ok)
    ensures !r.NeedsUnpack() && mode.root == if ok then r else old(mode.root)
    ensures ok ==> Persisted(mode, r)
  {
    hide Arena, NodeOk, StoreOk, Unanswered;
    mode.Member(r);
    ok := Persister.Save(mode, r);
    mode.Member(r);
    if ok {
      mode.root := r;
    }
  }

  /** Two puts into a new index, as far as they succeed. */
  method PutTwo(index: Index, v: Value) returns (ok: bool)
    requires index.Valid() && !index.closed && index.Tree() == Nil
    modifies index`root, index.mode, index.mode.trees.Keys
    ensures index.Valid() && index.mode.Answered(ok)
    ensures fresh(index.mode.trees.Keys - old(index.mode.trees.Keys))
    ensures ok ==> index.Tree() == TwoHalves(v)
  {
    hide Trie.Update, Abs, Updated, RootOk, Arena, Pot.InMemory, Pot.Intact, TwoHalves, Unanswered;
    var one, n := index.Update(Zeros()[0 := true], Some(v));
    ok := one == Done;
    if ok {
      var two, m := index.Update(Zeros(), Some(v));
      ok := two == Done;
      if ok {
        TwoPuts(v, n, m);
      }
    }
  }

  /** A store with the two-entry tree, under the reference that is returned if every request is answered. */
  method SaveTwo(v: Value, answers: nat -> bool) returns (pot: Pot, ref: Option<Ref>)
    ensures fresh(pot) && pot.Valid() && fresh(pot.trees.Keys) && pot.answers == answers
    ensures ref.Some? <==> pot.Faults() == 0
    ensures ref.Some? ==> ref.value in pot.store && Resolve(ref.value) == TwoHalves(v)
  {
    hide Trie.Update, Abs, Updated, RootOk, Arena, Pot.InMemory, Pot.Intact, TwoHalves;
    pot := new Pot(answers);
    ref := None;
    assert pot.Faults() == 0;
    var index := new Index.Create(pot);
    var ok := PutTwo(index, v);
    if ok {
      TwoHalvesRoot(v);
      var status;
      status, ref := index.Save();
      if status != Done {
        ref := None;
      }
    }
  }

  /** That store, opened again; null if a read or a write failed on the way. */
  method ReloadTwo(v: Value, answers: nat -> bool) returns (index: Index?, ghost pot: Pot)
    ensures pot.answers == answers && (index == null <==> pot.Faults() > 0)
    ensures index != null ==> index.mode == pot && fresh(index) && fresh(pot) && fresh(pot.trees.Keys)
    ensures index != null ==> index.Valid() && !index.closed && index.Tree() == TwoHalves(v)
    ensures index != null ==> !index.mode.Intact(index.root, 0, Zeros())
  {
    hide Arena, RootOk, Pot.Intact, Bare, TwoHalves, View;
    index := null;
    var p, ref := SaveTwo(v, answers);
    pot := p;
    if ref.Some? {
      var ok := p.Open(ref.value);
      if ok {
        TwoHalvesRoot(v);
        p.IntactPacked(p.root, 0, Zeros());
        TwoHalvesNotBare(v);
        index := new Index.Over(p);
      }
    }
  }

  lemma TwoHalvesRoot(v: Value)
    ensures RootOk(TwoHalves(v)) && TwoHalves(v).Node?
    ensures Abs(TwoHalves(v)).Keys == {Zeros(), Zeros()[0 := true]}
  {
    TwoHalvesOk(v);
  }

  /** Two puts, a save, a reload, and a delete of the key at the root: the other key is gone too. */
  method DeleteAfterReload(v: Value, answers: nat -> bool)
    returns (index: Index?, ghost before: map<Key, Value>, ghost pot: Pot)
    ensures pot.answers == answers && (index == null <==> pot.Faults() > 0)
    ensures (forall i: nat :: answers(i)) ==> index != null
    ensures index != null ==> index.Valid() && !index.closed && index.Map() == map[]
    ensures index != null ==> before.Keys == {Zeros(), Zeros()[0 := true]}
  {
    hide Arena, RootOk, Pot.Intact, Trie.Update, Abs, Updated, Pot.InMemory;
    before := map[];
    index, pot := ReloadTwo(v, answers);
    if index != null {
      before := index.Map();
      TwoHalvesRoot(v);
      var status, loaded := index.Update(Zeros(), None);
      if status == Done {
        DeleteLosesAnEntry(v);
      } else {
        index := null;
      }
    }
    NoneUnanswered(answers, pot.requests);
  }
}
