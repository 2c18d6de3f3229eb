/**
 * Nodes in memory as numbered cells, for runs in which calls overlap: what happens to them between
 * two awaits.
 */
module PotArena {
  import opened Bits
  import opened Wrappers
  import opened Trie
  import opened Store

  datatype Child = Child(at: nat, id: nat, size: nat)

  datatype Cell = Cell(forks: seq<Child>, pinned: Option<Entry>, ref: Option<Ref>) {
    predicate NeedsUnpack()
    {
      ref.Some? && pinned.None? && forks == []
    }
  }

  /** `trees` says what each cell stands for. Numbers from `next` on are free. */
  datatype Memory = Memory(cells: map<nat, Cell>, trees: map<nat, Tree>, next: nat)

  // ---------------------------------------------------------------- lists of children

  ghost predicate KidsOk(cs: seq<Child>, trees: map<nat, Tree>)
  {
    forall c | c in cs :: c.id in trees && trees[c.id].Node?
  }

  ghost function View(cs: seq<Child>, trees: map<nat, Tree>): (r: seq<Fork>)
    requires KidsOk(cs, trees)
    ensures |r| == |cs|
    ensures forall i :: 0 <= i < |cs| ==> r[i] == Fork(cs[i].at, trees[cs[i].id], cs[i].size)
  {
    seq(|cs|, i requires 0 <= i < |cs| => assert cs[i] in cs; Fork(cs[i].at, trees[cs[i].id], cs[i].size))
  }

  lemma NoKids(trees: map<nat, Tree>)
    ensures KidsOk([], trees) && View([], trees) == []
  {
  }

  lemma KidIs(cs: seq<Child>, c: Child, trees: map<nat, Tree>)
    requires KidsOk(cs, trees) && c in cs
    ensures c.id in trees && trees[c.id].Node?
  {
  }

  function Truncated(cs: seq<Child>, po: int): seq<Child>
  {
    if cs == [] || cs[0].at >= po then [] else [cs[0]] + Truncated(cs[1..], po)
  }

  function Copied(cs: seq<Child>, from: int, to: int): seq<Child>
  {
    if cs == [] then []
    else if cs[0].at < from then Copied(cs[1..], from, to)
    else if cs[0].at < to then [cs[0]] + Copied(cs[1..], from, to)
    else []
  }

  function Appended(dst: seq<Child>, src: seq<Child>, from: int, to: int): seq<Child>
  {
    Truncated(dst, from) + Copied(src, from, to)
  }

  function ChildAt(cs: seq<Child>, po: int): Option<Child>
  {
    if cs == [] || cs[0].at > po then None
    else if cs[0].at == po then Some(cs[0])
    else ChildAt(cs[1..], po)
  }

  function LastChild(cs: seq<Child>, from: int): Option<Child>
  {
    if cs == [] then None
    else if cs[|cs| - 1].at >= from then Some(cs[|cs| - 1])
    else LastChild(cs[..|cs| - 1], from)
  }

  function SizeOf(cs: seq<Child>, from: int): nat
  {
    if cs == [] then 0
    else SizeOf(cs[..|cs| - 1], from) + if cs[|cs| - 1].at >= from then cs[|cs| - 1].size else 0
  }

  lemma {:induction false} TruncatedView(cs: seq<Child>, po: int, trees: map<nat, Tree>)
    requires KidsOk(cs, trees)
    ensures KidsOk(Truncated(cs, po), trees) && View(Truncated(cs, po), trees) == Truncate(View(cs, trees), po)
  {
    if cs != [] && cs[0].at < po {
      TruncatedView(cs[1..], po, trees);
      assert View(cs, trees)[1..] == View(cs[1..], trees);
    }
  }

  lemma {:induction false} CopiedView(cs: seq<Child>, from: int, to: int, trees: map<nat, Tree>)
    requires KidsOk(cs, trees)
    ensures KidsOk(Copied(cs, from, to), trees) && View(Copied(cs, from, to), trees) == Copy(View(cs, trees), from, to)
  {
    if cs != [] {
      CopiedView(cs[1..], from, to, trees);
      assert View(cs, trees)[1..] == View(cs[1..], trees);
    }
  }

  lemma {:induction false} AppendedView(dst: seq<Child>, src: seq<Child>, from: int, to: int, trees: map<nat, Tree>)
    requires KidsOk(dst, trees) && KidsOk(src, trees)
    ensures KidsOk(Appended(dst, src, from, to), trees)
    ensures View(Appended(dst, src, from, to), trees) == AppendRange(View(dst, trees), View(src, trees), from, to)
  {
    TruncatedView(dst, from, trees);
    CopiedView(src, from, to, trees);
  }

  lemma {:induction false} ChildAtView(cs: seq<Child>, po: int, trees: map<nat, Tree>)
    requires KidsOk(cs, trees)
    ensures match ChildAt(cs, po)
            case None => ForkAt(View(cs, trees), po).None?
            case Some(c) =>
              c in cs && c.at == po && ForkAt(View(cs, trees), po) ==
              Some(Fork(c.at, trees[c.id], c.size))
  {
    if cs != [] && cs[0].at < po {
      ChildAtView(cs[1..], po, trees);
      assert View(cs, trees)[1..] == View(cs[1..], trees);
    }
  }

  lemma {:induction false} LastChildView(cs: seq<Child>, from: int, trees: map<nat, Tree>)
    requires KidsOk(cs, trees)
    ensures match LastChild(cs, from)
            case None => LastFork(View(cs, trees), from).None?
            case Some(c) =>
              c in cs && c.at >= from && LastFork(View(cs, trees), from) ==
              Some(Fork(c.at, trees[c.id], c.size))
    decreases |cs|
  {
    if cs != [] && cs[|cs| - 1].at < from {
      var n := |cs| - 1;
      LastChildView(cs[..n], from, trees);
      assert View(cs, trees)[..n] == View(cs[..n], trees);
    }
  }

  lemma {:induction false} SizeOfView(cs: seq<Child>, from: int, trees: map<nat, Tree>)
    requires KidsOk(cs, trees)
    ensures SizeOf(cs, from) == SizeFrom(View(cs, trees), from)
    decreases |cs|
  {
    if cs != [] {
      var n := |cs| - 1;
      SizeOfView(cs[..n], from, trees);
      assert View(cs, trees)[..n] == View(cs[..n], trees);
    }
  }

  // ---------------------------------------------------------------- cells

  /** A cell means what it holds in memory, or what its reference stands for, or both. */
  ghost predicate CellOk(c: Cell, t: Tree, trees: map<nat, Tree>)
  {
    && KidsOk(c.forks, trees)
    && (match c.pinned
        case Some(e) => t == Node(e, View(c.forks, trees))
        case None => c.forks == [] && (c.ref.None? ==> t.Nil?))
    && (c.ref.Some? ==> Resolve(c.ref.value) == t)
  }

  ghost predicate MemOk(m: Memory)
  {
    && m.cells.Keys == m.trees.Keys
    && (forall id | id in m.cells :: id < m.next)
    && (forall id | id in m.cells :: CellOk(m.cells[id], m.trees[id], m.trees))
  }

  predicate Loaded(m: Memory, id: nat)
  {
    id in m.cells && m.cells[id].pinned.Some?
  }

  /** Every cell stands for what it stood for, and keeps its entry and its reference. */
  ghost predicate Later(m: Memory, m': Memory)
  {
    && (forall id | id in m.trees :: id in m'.trees && m'.trees[id] == m.trees[id])
    && (forall id | id in m.cells :: id in m'.cells &&
          (m.cells[id].pinned.Some? ==> m'.cells[id].pinned == m.cells[id].pinned) &&
          (m.cells[id].ref.Some? ==> m'.cells[id].ref == m.cells[id].ref))
  }

  lemma ViewLater(cs: seq<Child>, m: Memory, m': Memory)
    requires KidsOk(cs, m.trees) && Later(m, m')
    ensures KidsOk(cs, m'.trees) && View(cs, m'.trees) == View(cs, m.trees)
  {
    assert forall c | c in cs :: m'.trees[c.id] == m.trees[c.id];
  }

  /** A new cell. */
  function Alloc(m: Memory, c: Cell, t: Tree): Memory
  {
    Memory(m.cells[m.next := c], m.trees[m.next := t], m.next + 1)
  }

  lemma {:induction false} AllocOk(m: Memory, c: Cell, t: Tree)
    requires MemOk(m) && CellOk(c, t, m.trees)
    ensures MemOk(Alloc(m, c, t)) && Later(m, Alloc(m, c, t)) && m.next !in m.cells && m.next !in m.trees
  {
    hide CellOk;
    var m' := Alloc(m, c, t);
    assert m.next !in m.cells;
    forall id | id in m'.cells
      ensures CellOk(m'.cells[id], m'.trees[id], m'.trees)
    {
      CellLater(m'.cells[id], m'.trees[id], m, m');
    }
  }

  lemma CellLater(c: Cell, t: Tree, m: Memory, m': Memory)
    requires CellOk(c, t, m.trees) && Later(m, m')
    ensures CellOk(c, t, m'.trees)
  {
    ViewLater(c.forks, m, m');
  }

  // ---------------------------------------------------------------- a read arrives

  /** The children of a loaded record: packed cells with new numbers. */
  function Stubs(rs: seq<RecordFork>, first: nat): seq<Child>
  {
    seq(|rs|, i requires 0 <= i < |rs| => Child(rs[i].at, first + i, rs[i].size))
  }

  /** The memory with a packed cell for each fork of a record. */
  ghost function WithStubs(m: Memory, rs: seq<RecordFork>): (w: Memory)
    ensures w.next == m.next + |rs|
  {
    if rs == [] then m
    else
      var ref := rs[|rs| - 1].ref;
      Alloc(WithStubs(m, rs[..|rs| - 1]), Cell([], None, Some(ref)), Resolve(ref))
  }

  /** unmarshalBinary in a cell: it may be filled already, by a read that was faster. */
  ghost function Arrive(m: Memory, id: nat): Memory
    requires id in m.cells && m.cells[id].ref.Some?
  {
    var ref := m.cells[id].ref;
    var rec := ref.value.record;
    var w := WithStubs(m, rec.forks);
    w.(cells := w.cells[id := Cell(Stubs(rec.forks, m.next), Some(rec.entry), ref)])
  }

  /** `w` has packed cells for the forks of a record, and `m` had none of them. */
  ghost predicate Stubbed(m: Memory, rs: seq<RecordFork>, w: Memory)
  {
    && KidsOk(Stubs(rs, m.next), w.trees) && View(Stubs(rs, m.next), w.trees) == ResolveForks(rs)
    && forall c | c in Stubs(rs, m.next) :: c.id >= m.next && c.id in w.cells && !Loaded(w, c.id)
  }

  lemma {:induction false} StubsOk(m: Memory, rs: seq<RecordFork>)
    requires MemOk(m)
    ensures var w := WithStubs(m, rs); MemOk(w) && Later(m, w) && Stubbed(m, rs, w)
  {
    hide CellOk, Stubbed, MemOk, Later;
    if rs == [] {
      NoStubs(m);
    } else {
      var n := |rs| - 1;
      var w := WithStubs(m, rs[..n]);
      var ref := rs[n].ref;
      StubsOk(m, rs[..n]);
      StubOk(ref, w.trees);
      AllocOk(w, Cell([], None, Some(ref)), Resolve(ref));
      LaterAll(m, w, WithStubs(m, rs));
      StubAdded(m, rs, w);
    }
  }

  lemma NoStubs(m: Memory)
    requires MemOk(m)
    ensures Later(m, m) && Stubbed(m, [], m)
  {
  }

  lemma LaterAll(a: Memory, b: Memory, c: Memory)
    requires Later(a, b) && Later(b, c)
    ensures Later(a, c)
  {
  }

  lemma StubAdded(m: Memory, rs: seq<RecordFork>, w: Memory)
    requires rs != [] && Stubbed(m, rs[..|rs| - 1], w) && w.next !in w.cells && w.next !in w.trees
    requires w.next == m.next + |rs| - 1
    ensures var ref := rs[|rs| - 1].ref; Stubbed(m, rs, Alloc(w, Cell([], None, Some(ref)), Resolve(ref)))
  {
    hide Resolve, View, Stubs, Alloc, KidsOk, ResolveForks;
    var n := |rs| - 1;
    var before, last := Stubs(rs[..n], m.next), Child(rs[n].at, w.next, rs[n].size);
    var w' := Alloc(w, Cell([], None, Some(rs[n].ref)), Resolve(rs[n].ref));
    AllocKeeps(w, Cell([], None, Some(rs[n].ref)), Resolve(rs[n].ref));
    ViewLater(before, w, w');
    StubsSplit(rs, m.next);
    ResolveIsNode(rs[n].ref);
    ViewJoin(before, last, w'.trees);
    ResolveSplit(rs);
  }

  lemma ResolveSplit(rs: seq<RecordFork>)
    requires rs != []
    ensures var n := |rs| - 1; ResolveForks(rs) == ResolveForks(rs[..n]) + [ResolveFork(rs[n])]
  {
    hide ResolveForks, ResolveFork;
    var n := |rs| - 1;
    forall i | 0 <= i < n
      ensures ResolveForks(rs)[i] == ResolveForks(rs[..n])[i]
    {
      assert rs[i] == rs[..n][i];
    }
  }

  lemma AllocKeeps(m: Memory, c: Cell, t: Tree)
    requires m.next !in m.cells && m.next !in m.trees
    ensures var w := Alloc(m, c, t); Later(m, w) && w.next == m.next + 1
    ensures var w := Alloc(m, c, t);
            m.next in w.cells && w.cells[m.next] == c && m.next in w.trees &&
            w.trees[m.next] == t
    ensures var w := Alloc(m, c, t); forall id | id in m.cells :: w.cells[id] == m.cells[id]
  {
  }

  lemma StubsSplit(rs: seq<RecordFork>, first: nat)
    requires rs != []
    ensures var n := |rs| - 1; Stubs(rs, first) == Stubs(rs[..n], first) + [Child(rs[n].at, first + n, rs[n].size)]
  {
  }

  lemma ViewJoin(cs: seq<Child>, c: Child, trees: map<nat, Tree>)
    requires KidsOk(cs, trees) && c.id in trees && trees[c.id].Node?
    ensures KidsOk(cs + [c], trees)
    ensures View(cs + [c], trees) == View(cs, trees) + [Fork(c.at, trees[c.id], c.size)]
  {
  }

  lemma ResolveIsNode(r: Ref)
    ensures Resolve(r) == Node(r.record.entry, ResolveForks(r.record.forks))
  {
  }

  lemma StubOk(r: Ref, trees: map<nat, Tree>)
    ensures CellOk(Cell([], None, Some(r)), Resolve(r), trees)
  {
  }

  /** A read that arrives, early or late, changes no meaning. */
  lemma {:induction false} ArriveOk(m: Memory, id: nat)
    requires MemOk(m) && id in m.cells && m.cells[id].ref.Some?
    ensures MemOk(Arrive(m, id)) && Later(m, Arrive(m, id)) && Loaded(Arrive(m, id), id)
  {
    hide CellOk, WithStubs, Stubs, View, Resolve, KidsOk;
    var ref := m.cells[id].ref.value;
    StubsOk(m, ref.record.forks);
    PinnedIs(m, id);
    FilledOk(ref, Stubs(ref.record.forks, m.next), WithStubs(m, ref.record.forks).trees);
  }

  /** What is known of a referenced cell. */
  lemma PinnedIs(m: Memory, id: nat)
    requires MemOk(m) && id in m.cells && m.cells[id].ref.Some?
    ensures Resolve(m.cells[id].ref.value) == m.trees[id]
    ensures m.cells[id].pinned.Some? ==> m.cells[id].pinned.value == m.cells[id].ref.value.record.entry
  {
    assert CellOk(m.cells[id], m.trees[id], m.trees);
    ResolveIsNode(m.cells[id].ref.value);
  }

  lemma FilledOk(r: Ref, cs: seq<Child>, trees: map<nat, Tree>)
    requires KidsOk(cs, trees) && View(cs, trees) == ResolveForks(r.record.forks)
    ensures CellOk(Cell(cs, Some(r.record.entry), Some(r)), Resolve(r), trees)
  {
    ResolveIsNode(r);
  }

  /** What is known of a cell in memory. */
  lemma LoadedIs(m: Memory, id: nat)
    requires MemOk(m) && Loaded(m, id)
    ensures id in m.trees && KidsOk(m.cells[id].forks, m.trees)
    ensures m.trees[id] == Node(m.cells[id].pinned.value, View(m.cells[id].forks, m.trees))
  {
    assert CellOk(m.cells[id], m.trees[id], m.trees);
  }

  /** Whatever a read found, it leaves packed children. */
  lemma {:induction false} FreshKids(m: Memory, id: nat)
    requires MemOk(m) && id in m.cells && m.cells[id].ref.Some?
    ensures var m' := Arrive(m, id); forall c | c in m'.cells[id].forks :: !Loaded(m', c.id)
  {
    hide WithStubs, Stubs, MemOk, View, KidsOk;
    StubsOk(m, m.cells[id].ref.value.record.forks);
    assert id < m.next by { Below(m, id); }
  }

  /** The read that arrives late puts packed cells in the place of what was in memory. */
  lemma {:induction false} LateArrivalUnloads(m: Memory, id: nat, at: nat)
    requires MemOk(m) && Loaded(m, id) && m.cells[id].ref.Some? && LastChild(m.cells[id].forks, at).Some?
    ensures var m' := Arrive(m, id);
            Loaded(m', id) && LastChild(m'.cells[id].forks, at).Some? &&
              !Loaded(m', LastChild(m'.cells[id].forks, at).value.id)
  {
    hide Arrive, MemOk, View, KidsOk, LastChild, LastFork;
    var m' := Arrive(m, id);
    ArriveOk(m, id);
    FreshKids(m, id);
    LoadedIs(m, id);
    LoadedIs(m', id);
    LastChildView(m.cells[id].forks, at, m.trees);
    LastChildView(m'.cells[id].forks, at, m'.trees);
  }

  lemma Below(m: Memory, id: nat)
    requires MemOk(m) && id in m.cells
    ensures id < m.next
  {
  }

  // ---------------------------------------------------------------- a cell is saved

  /** Every child of `cs` has a reference. */
  predicate AllSaved(m: Memory, cs: seq<Child>)
  {
    forall c | c in cs :: c.id in m.cells && m.cells[c.id].ref.Some?
  }

  function RecordForks(m: Memory, cs: seq<Child>): (r: seq<RecordFork>)
    requires AllSaved(m, cs)
    ensures |r| == |cs|
  {
    seq(|cs|, i requires 0 <= i < |cs| =>
      assert cs[i] in cs; RecordFork(cs[i].at, m.cells[cs[i].id].ref.value, cs[i].size))
  }

  /** save has written the record of cell `id`, whose children were saved before. */
  function Stamp(m: Memory, id: nat): Memory
    requires Loaded(m, id) && AllSaved(m, m.cells[id].forks)
  {
    var c := m.cells[id];
    m.(cells := m.cells[id := c.(ref := Some(Digest(Record(c.pinned.value, RecordForks(m, c.forks)))))])
  }

  /** The new reference stands for what the cell stands for. */
  lemma {:induction false} StampOk(m: Memory, id: nat)
    requires MemOk(m) && Loaded(m, id) && AllSaved(m, m.cells[id].forks) && m.cells[id].ref.None?
    ensures MemOk(Stamp(m, id)) && Later(m, Stamp(m, id))
    ensures Resolve(Stamp(m, id).cells[id].ref.value) == m.trees[id]
  {
    hide CellOk, View, KidsOk, Resolve, RecordForks;
    var c, m' := m.cells[id], Stamp(m, id);
    LoadedIs(m, id);
    RecordIs(m, c.forks);
    StampedOk(c, m'.cells[id].ref.value, m.trees[id], m.trees);
  }

  lemma StampedOk(c: Cell, r: Ref, t: Tree, trees: map<nat, Tree>)
    requires KidsOk(c.forks, trees) && c.pinned == Some(r.record.entry) &&
             t == Node(r.record.entry, View(c.forks, trees))
    requires View(c.forks, trees) == ResolveForks(r.record.forks)
    ensures Resolve(r) == t && CellOk(c.(ref := Some(r)), t, trees)
  {
    ResolveIsNode(r);
  }

  lemma {:induction false} RecordIs(m: Memory, cs: seq<Child>)
    requires MemOk(m) && AllSaved(m, cs) && KidsOk(cs, m.trees)
    ensures View(cs, m.trees) == ResolveForks(RecordForks(m, cs))
  {
    hide CellOk, Resolve;
    var rs := RecordForks(m, cs);
    forall i | 0 <= i < |cs|
      ensures View(cs, m.trees)[i] == ResolveForks(rs)[i]
    {
      assert cs[i] in cs;
      PinnedIs(m, cs[i].id);
    }
  }

  // ---------------------------------------------------------------- what a call relies on

  function CellOf(m: Memory, id: nat): Cell
  {
    if id in m.cells then m.cells[id] else Cell([], None, None)
  }

  /** A read of cell `id` arrives. */
  ghost function Filled(m: Memory, id: nat): Memory
  {
    if id in m.cells && m.cells[id].ref.Some? then Arrive(m, id) else m
  }

  /** The cell is in memory, or it is an empty root. */
  ghost predicate Entered(m: Memory, id: nat)
  {
    id in m.cells && id in m.trees && (Loaded(m, id) || (m.trees[id].Nil? && m.cells[id].pinned.None?))
  }

  ghost predicate Requested(m: Memory, id: nat)
  {
    id in m.cells && id in m.trees && m.cells[id].ref.Some? && m.trees[id].Node?
  }

  lemma EnteredLater(m: Memory, m': Memory, id: nat)
    requires Entered(m, id) && Later(m, m') && MemOk(m')
    ensures Entered(m', id)
  {
    assert CellOk(m'.cells[id], m'.trees[id], m'.trees);
  }

  /** A child is in memory, or it can be read. */
  lemma KidIsEither(m: Memory, cs: seq<Child>, c: Child)
    requires MemOk(m) && KidsOk(cs, m.trees) && c in cs
    ensures if CellOf(m, c.id).NeedsUnpack() then Requested(m, c.id) else Loaded(m, c.id) && Entered(m, c.id)
  {
    hide View;
    KidIs(cs, c, m.trees);
    assert CellOk(m.cells[c.id], m.trees[c.id], m.trees);
  }

  lemma LaterSame(m: Memory)
    ensures Later(m, m)
  {
  }

  lemma ArrivalOk(m: Memory, id: nat)
    requires MemOk(m)
    ensures MemOk(Filled(m, id)) && Later(m, Filled(m, id))
  {
    hide MemOk, Later, Arrive;
    LaterSame(m);
    if id in m.cells && m.cells[id].ref.Some? {
      ArriveOk(m, id);
    }
  }
}
