/** The splices and the removal on cells: what the code does without waiting for anything. */
module PotSplices {
  import opened Bits
  import opened Wrappers
  import opened Trie
  import opened Store
  import opened PotArena

  function Wedged(acc: seq<Child>, cs: seq<Child>, at: int, cut: int): seq<Child>
  {
    Appended(Appended(acc, cs, at, cut), cs, cut + 1, DEPTH)
  }

  function NewChild(at: nat, id: nat, cs: seq<Child>): Child
  {
    Child(at, id, 1 + SizeOf(cs, at + 1))
  }

  function Whirled(acc: seq<Child>, id: nat, cs: seq<Child>, at: int, p: nat): seq<Child>
  {
    Appended(acc, cs, at, p) + [NewChild(p, id, cs)]
  }

  function Whacked(acc: seq<Child>, id: nat, cs: seq<Child>, at: int, ms: seq<Child>, mAt: nat): seq<Child>
  {
    var a := Appended(acc, cs, at, mAt);
    Appended(if mAt < DEPTH then a + [NewChild(mAt, id, cs)] else a, ms, mAt + 1, DEPTH)
  }

  lemma {:induction false} WedgedView(m: Memory, acc: seq<Child>, id: nat, at: int, cut: int)
    requires MemOk(m) && Loaded(m, id) && KidsOk(acc, m.trees)
    ensures var r := Wedged(acc, m.cells[id].forks, at, cut);
            && KidsOk(r, m.trees) && id in m.trees && m.trees[id].Node?
            && View(r, m.trees) == Wedge(View(acc, m.trees), m.trees[id], at, cut)
  {
    hide MemOk, View, KidsOk, AppendRange, Appended;
    var cs := m.cells[id].forks;
    LoadedIs(m, id);
    AppendedView(acc, cs, at, cut, m.trees);
    AppendedView(Appended(acc, cs, at, cut), cs, cut + 1, DEPTH, m.trees);
  }

  lemma {:induction false} ChildAdded(m: Memory, a: seq<Child>, id: nat, p: nat)
    requires MemOk(m) && Loaded(m, id) && KidsOk(a, m.trees)
    ensures var r := a + [NewChild(p, id, m.cells[id].forks)];
            && KidsOk(r, m.trees) && id in m.trees && m.trees[id].Node?
            && View(r, m.trees) == View(a, m.trees) + [NewAt(p, m.trees[id])]
  {
    hide MemOk, View, KidsOk, SizeOf, SizeFrom;
    LoadedIs(m, id);
    SizeOfView(m.cells[id].forks, p + 1, m.trees);
    ViewJoin(a, NewChild(p, id, m.cells[id].forks), m.trees);
  }

  lemma {:induction false} WhirledView(m: Memory, acc: seq<Child>, id: nat, at: int, p: nat)
    requires MemOk(m) && Loaded(m, id) && KidsOk(acc, m.trees)
    ensures var r := Whirled(acc, id, m.cells[id].forks, at, p);
            && KidsOk(r, m.trees) && id in m.trees && m.trees[id].Node?
            && View(r, m.trees) == Whirl(View(acc, m.trees), m.trees[id], at, p)
  {
    hide MemOk, View, KidsOk, AppendRange, Appended, NewChild, NewAt;
    LoadedIs(m, id);
    AppendedView(acc, m.cells[id].forks, at, p, m.trees);
    ChildAdded(m, Appended(acc, m.cells[id].forks, at, p), id, p);
  }

  /** `ms` are the forks of the node spliced in, which stands for `t`. */
  lemma {:induction false} WhackedView(m: Memory, acc: seq<Child>, id: nat, at: int, ms: seq<Child>, t: Tree, mAt: nat)
    requires MemOk(m) && Loaded(m, id) && KidsOk(acc, m.trees) && KidsOk(ms, m.trees)
    requires t.Node? && t.forks == View(ms, m.trees)
    ensures var r := Whacked(acc, id, m.cells[id].forks, at, ms, mAt);
            && KidsOk(r, m.trees) && id in m.trees && m.trees[id].Node?
            && View(r, m.trees) == Whack(View(acc, m.trees), m.trees[id], at, t, mAt)
  {
    hide MemOk, View, KidsOk, AppendRange, Appended, NewChild, NewAt;
    LoadedIs(m, id);
    var a := Appended(acc, m.cells[id].forks, at, mAt);
    AppendedView(acc, m.cells[id].forks, at, mAt, m.trees);
    ChildAdded(m, a, id, mAt);
    AppendedView(a, ms, mAt + 1, DEPTH, m.trees);
    AppendedView(a + [NewChild(mAt, id, m.cells[id].forks)], ms, mAt + 1, DEPTH, m.trees);
  }

  // ---------------------------------------------------------------- removal

  /** The last fork from `at` on, if the cell behind it is in memory: a packed one looks empty. */
  function LastInMemory(m: Memory, id: nat, at: nat): Option<Child>
    requires id in m.cells
  {
    var last := LastChild(m.cells[id].forks, at);
    if last.Some? && Loaded(m, last.value.id) then last else None
  }

  lemma {:induction false} LastIsBelow(m: Memory, id: nat, at: nat)
    requires MemOk(m) && Loaded(m, id) && LastChild(m.cells[id].forks, at).Some?
    ensures var c := LastChild(m.cells[id].forks, at).value;
            && c.id in m.trees && m.trees[c.id].Node? && m.trees[c.id] < m.trees[id]
            && LastFork(m.trees[id].forks, at) == Some(Fork(c.at, m.trees[c.id], c.size))
  {
    hide MemOk, LastChild, LastFork, View, KidsOk;
    LoadedIs(m, id);
    LastChildView(m.cells[id].forks, at, m.trees);
    LastForkIn(m.trees[id].forks, at);
    KidIs(m.cells[id].forks, LastChild(m.cells[id].forks, at).value, m.trees);
  }

  lemma {:induction false} NoneIsNone(m: Memory, id: nat, at: nat)
    requires MemOk(m) && Loaded(m, id) && LastChild(m.cells[id].forks, at).None?
    ensures id in m.trees && m.trees[id].Node? && LastFork(m.trees[id].forks, at).None?
  {
    hide MemOk, LastChild, LastFork, View, KidsOk;
    LoadedIs(m, id);
    LastChildView(m.cells[id].forks, at, m.trees);
  }

  /** How many cells of the chain of last forks are in memory. */
  ghost function Chain(m: Memory, id: nat, at: nat): nat
    requires MemOk(m) && Loaded(m, id)
    decreases m.trees[id]
  {
    var last := LastInMemory(m, id, at);
    if last.None? then 0
    else
      LastIsBelow(m, id, at);
      1 + Chain(m, last.value.id, last.value.at + 1)
  }

  ghost function PulledTail(m: Memory, acc: seq<Child>, id: nat, at: nat): Cell
    requires MemOk(m) && Loaded(m, id)
    decreases m.trees[id]
  {
    var cs, last := m.cells[id].forks, LastInMemory(m, id, at);
    if last.None? then Cell(Wedged(acc, cs, at, DEPTH), m.cells[id].pinned, None)
    else
      LastIsBelow(m, id, at);
      PulledTail(m, Whirled(acc, id, cs, at, last.value.at), last.value.id, last.value.at + 1)
  }

  ghost function PulledLeaf(m: Memory, acc: seq<Child>, at: nat): Cell
  {
    match ChildAt(acc, at - 1)
    case None => Cell([], None, None)
    case Some(p) =>
      if p.id !in m.cells then Cell([], None, None)
      else Cell(Wedged(Truncated(acc, at - 1), m.cells[p.id].forks, at - 1, at - 1), m.cells[p.id].pinned, None)
  }

  ghost function Pulled(m: Memory, acc: seq<Child>, id: nat, at: nat): Cell
    requires MemOk(m) && Loaded(m, id)
  {
    var last := LastInMemory(m, id, at);
    if last.None? then PulledLeaf(m, acc, at)
    else
      LastIsBelow(m, id, at);
      PulledTail(m, Wedged(acc, m.cells[id].forks, at, last.value.at), last.value.id, last.value.at + 1)
  }

  /** The fork before the focus leads to the cell it was entered from, which is in memory. */
  ghost predicate ParentLoaded(m: Memory, acc: seq<Child>, at: nat)
  {
    forall c | c in acc && c.at == at - 1 :: Loaded(m, c.id)
  }

  lemma {:induction false} PulledTailIs(m: Memory, acc: seq<Child>, id: nat, at: nat)
    requires MemOk(m) && Loaded(m, id) && KidsOk(acc, m.trees)
    ensures id in m.trees && m.trees[id].Node?
    ensures CellOk(PulledTail(m, acc, id, at), PullTail(View(acc, m.trees), m.trees[id], at, Chain(m, id, at)), m.trees)
    ensures PulledTail(m, acc, id, at).pinned.Some? && PulledTail(m, acc, id, at).ref == None
    decreases m.trees[id]
  {
    hide MemOk, LastChild, LastFork, View, KidsOk, Wedge, Whirl, Wedged, Whirled;
    LoadedIs(m, id);
    var last := LastInMemory(m, id, at);
    if last.None? {
      WedgedView(m, acc, id, at, DEPTH);
    } else {
      LastIsBelow(m, id, at);
      var c := last.value;
      WhirledView(m, acc, id, at, c.at);
      PulledTailIs(m, Whirled(acc, id, m.cells[id].forks, at, c.at), c.id, c.at + 1);
    }
  }

  lemma {:induction false} PulledLeafIs(m: Memory, acc: seq<Child>, at: nat)
    requires MemOk(m) && KidsOk(acc, m.trees) && ParentLoaded(m, acc, at)
    ensures CellOk(PulledLeaf(m, acc, at), PullLeaf(View(acc, m.trees), at), m.trees)
    ensures PulledLeaf(m, acc, at).ref == None
    ensures PullLeaf(View(acc, m.trees), at).Node? ==> PulledLeaf(m, acc, at).pinned.Some?
  {
    hide MemOk, View, KidsOk, Wedge, Wedged, ChildAt, ForkAt, Truncated, Truncate;
    ChildAtView(acc, at - 1, m.trees);
    TruncatedView(acc, at - 1, m.trees);
    var p := ChildAt(acc, at - 1);
    if p.Some? {
      LoadedIs(m, p.value.id);
      WedgedView(m, Truncated(acc, at - 1), p.value.id, at - 1, at - 1);
    } else {
      EmptyOk(m.trees);
    }
  }

  lemma EmptyOk(trees: map<nat, Tree>)
    ensures CellOk(Cell([], None, None), Nil, trees)
  {
  }

  /** What removal does is the specified removal, for what is in memory when it runs. */
  lemma {:induction false} PulledIs(m: Memory, acc: seq<Child>, id: nat, at: nat)
    requires MemOk(m) && Loaded(m, id) && KidsOk(acc, m.trees) && ParentLoaded(m, acc, at)
    ensures id in m.trees && m.trees[id].Node?
    ensures var t := Pull(View(acc, m.trees), m.trees[id], at, Chain(m, id, at));
            && CellOk(Pulled(m, acc, id, at), t, m.trees) && Pulled(m, acc, id, at).ref == None
            && (t.Node? ==> Pulled(m, acc, id, at).pinned.Some?)
  {
    hide MemOk, LastChild, LastFork, View, KidsOk, Wedge, Wedged, PulledLeaf, PulledTail, PullLeaf, PullTail, CellOk;
    LoadedIs(m, id);
    var last := LastInMemory(m, id, at);
    if last.None? {
      PulledLeafIs(m, acc, at);
    } else {
      LastIsBelow(m, id, at);
      var c := last.value;
      WedgedView(m, acc, id, at, c.at);
      PulledTailIs(m, Wedged(acc, m.cells[id].forks, at, c.at), c.id, c.at + 1);
    }
  }
}
