/**
 * How much an update, a find or an iteration still has to do: a number that each of its own steps
 * lowers and that no step of another call raises.
 */
module PotProgress {
  import opened Bits
  import opened Wrappers
  import opened Trie
  import opened TrieMap
  import opened TrieIter
  import opened Store
  import opened PotArena
  import opened PotSplices
  import opened PotTasks
  import opened PotReads

  // ---------------------------------------------------------------- height

  ghost function Height(t: Tree): nat
    decreases t
  {
    if t.Nil? then 0 else 1 + Tallest(t.forks)
  }

  ghost function ForkHeight(f: Fork): nat
    decreases f
  {
    Height(f.tree)
  }

  ghost function Tallest(fs: seq<Fork>): nat
    decreases fs
  {
    if fs == [] then 0
    else if ForkHeight(fs[0]) > Tallest(fs[1..]) then ForkHeight(fs[0])
    else Tallest(fs[1..])
  }

  lemma {:induction false} TallestIs(fs: seq<Fork>, f: Fork)
    requires f in fs
    ensures Height(f.tree) <= Tallest(fs)
    decreases |fs|
  {
    if f != fs[0] {
      TallestIs(fs[1..], f);
    }
  }

  lemma ChildIsLower(t: Tree, f: Fork)
    requires t.Node? && f in t.forks
    ensures Height(f.tree) < Height(t)
  {
    TallestIs(t.forks, f);
  }

  lemma ForkIsLower(t: Tree, po: int)
    requires t.Node? && ForkAt(t.forks, po).Some?
    ensures Height(ForkAt(t.forks, po).value.tree) < Height(t)
  {
    hide Height;
    ForkAtIn(t.forks, po);
    ChildIsLower(t, ForkAt(t.forks, po).value);
  }

  ghost function HeightAt(m: Memory, id: nat): nat
  {
    if id in m.trees then Height(m.trees[id]) else 0
  }

  // ---------------------------------------------------------------- updates

  /** The cells in memory that were never saved. */
  ghost function Unsaved(m: Memory): set<nat>
  {
    set id | id in m.cells && m.cells[id].pinned.Some? && m.cells[id].ref.None?
  }

  /** Steps until updateInner has returned from all its calls. */
  ghost function Ahead(m: Memory, w: Task): nat
  {
    |w.frames| +
    match w.phase
    case At(id, _) => 4 * HeightAt(m, id) + 3
    case Reading(id, _, _, _) => 4 * HeightAt(m, id) + 2
    case Ready(id, _, _, _) => 4 * HeightAt(m, id) + 1
    case Back(_) => 0
  }

  /** Each of them fills at most one new cell, which is saved later. */
  ghost function TaskLeft(m: Memory, w: Task): nat
  {
    2 * Ahead(m, w) + |Unsaved(m)|
  }

  lemma UnsavedNew(m: Memory, c: Cell)
    requires MemOk(m)
    ensures |Unsaved(New(m, c))| <= |Unsaved(m)| + 1
    ensures forall id | id in m.trees :: HeightAt(New(m, c), id) == HeightAt(m, id)
  {
    hide CellOk, Height, Meaning;
    assert Unsaved(New(m, c)) <= Unsaved(m) + {m.next};
    Fewer(Unsaved(New(m, c)), Unsaved(m) + {m.next});
  }

  lemma Fewer<T>(a: set<T>, b: set<T>)
    requires a <= b
    ensures |a| <= |b|
  {
    assert b == a + (b - a);
  }

  lemma {:induction false} UnsavedStubs(m: Memory, rs: seq<RecordFork>)
    requires MemOk(m)
    ensures Unsaved(WithStubs(m, rs)) == Unsaved(m)
  {
    hide MemOk, Resolve;
    if rs != [] {
      var n := |rs| - 1;
      UnsavedStubs(m, rs[..n]);
      StubsOk(m, rs[..n]);
      UnsavedStub(WithStubs(m, rs[..n]), rs[n].ref);
    }
  }

  lemma UnsavedStub(m: Memory, r: Ref)
    requires MemOk(m)
    ensures Unsaved(Alloc(m, Cell([], None, Some(r)), Resolve(r))) == Unsaved(m)
  {
    hide CellOk, Resolve;
    assert m.next !in m.cells;
  }

  /** A read that arrives adds nothing to save. */
  lemma {:induction false} UnsavedFilled(m: Memory, id: nat)
    requires MemOk(m)
    ensures Unsaved(Filled(m, id)) == Unsaved(m)
  {
    hide MemOk, WithStubs, Stubs;
    if id in m.cells && m.cells[id].ref.Some? {
      var rs := m.cells[id].ref.value.record.forks;
      UnsavedStubs(m, rs);
      StubsOk(m, rs);
    }
  }

  /** What a step does that fills a new cell and returns. */
  lemma {:induction false} FinishAhead(m: Memory, w: Task, c: Cell)
    requires MemOk(m) && Ahead(m, w) > |w.frames|
    ensures var r := Finish(m, w, c); TaskLeft(r.0, r.1) < TaskLeft(m, w)
  {
    hide MemOk, New, Unsaved, HeightAt;
    UnsavedNew(m, c);
  }

  lemma {:induction false} LookAhead(m: Memory, w: Task)
    requires MemOk(m) && w.phase.At?
    ensures var r := Looked(m, w); TaskLeft(r.0, r.1) < TaskLeft(m, w)
  {
    hide MemOk, Finish, Unsaved, HeightAt, FirstDiff, ChildAt;
    if CellOf(m, w.phase.id).pinned.None? && w.e.Some? {
      FinishAhead(m, w, Cell(w.acc, w.e, None));
    }
  }

  lemma {:induction false} ReadAhead(m: Memory, w: Task, t: Tree)
    requires MemOk(m) && w.phase.Reading? && TaskOk(m, w, t)
    ensures var r := Read(m, w); TaskLeft(r.0, r.1) < TaskLeft(m, w)
  {
    hide MemOk, Filled, Unsaved, Height, Underway, OnTrack, ParentLoaded, ForkAt, FirstDiff;
    UnsavedFilled(m, w.phase.child.id);
    ArrivalOk(m, w.phase.child.id);
  }

  lemma {:induction false} ActAhead(m: Memory, w: Task, t: Tree)
    requires MemOk(m) && w.phase.Ready? && TaskOk(m, w, t)
    ensures var r := Acted(m, w); TaskLeft(r.0, r.1) < TaskLeft(m, w)
  {
    hide MemOk, Finish, Unsaved, Underway, OnTrack, ParentLoaded, ForkAt, FirstDiff, Height, Whacked, Whirled, Pulled,
      Reach;
    var id, at, po, next := w.phase.id, w.phase.at, w.phase.po, w.phase.next;
    var cs := CellOf(m, id).forks;
    FinishAhead(m, w, Cell(Whacked(w.acc, id, cs, at, [], DEPTH), w.e, None));
    FinishAhead(m, w, Cell(Whirled(w.acc, id, cs, at, po), w.e, None));
    if po >= DEPTH {
      RemoveAhead(m, w, id, at);
    } else if next.Some? {
      ForkIsLower(m.trees[id], po);
    }
  }

  lemma {:induction false} RemoveAhead(m: Memory, w: Task, id: nat, at: nat)
    requires MemOk(m) && w.phase.Ready? && Loaded(m, id)
    ensures var r := Remove(m, w, id, at); TaskLeft(r.0, r.1) < TaskLeft(m, w)
  {
    hide MemOk, Finish, Unsaved, HeightAt, Pulled, Reach;
    FinishAhead(m, w.(loaded := Reach(m, id, at)), Pulled(m, w.acc, id, at));
  }

  lemma {:induction false} JoinAhead(m: Memory, w: Task)
    requires MemOk(m) && w.phase.Back? && w.frames != []
    ensures var r := Joined(m, w); TaskLeft(r.0, r.1) < TaskLeft(m, w)
  {
    hide MemOk, New, Unsaved, Wedged, Whacked;
    var n := |w.frames| - 1;
    var f := CellOf(m, w.frames[n]);
    var r := if w.phase.res.Some? then CellOf(m, w.phase.res.value) else Cell([], None, None);
    UnsavedNew(m, Cell(Wedged(w.acc, f.forks, 0, 0), f.pinned, None));
    var joined := if r.pinned.None? then [] else Whacked([], w.phase.res.value, r.forks, -1, f.forks, 0);
    UnsavedNew(m, Cell(joined, f.pinned, None));
  }

  /** Saving a cell leaves one less to save. */
  lemma {:induction false} StampAhead(m: Memory, w: Task, id: nat)
    requires Loaded(m, id) && AllSaved(m, m.cells[id].forks) && m.cells[id].ref.None?
    ensures TaskLeft(Stamp(m, id), w) < TaskLeft(m, w)
  {
    hide RecordForks, Height;
    assert id in Unsaved(m) && Unsaved(Stamp(m, id)) == Unsaved(m) - {id};
    assert forall x :: HeightAt(Stamp(m, id), x) == HeightAt(m, x);
  }

  /** What other calls do adds nothing to do for this one. */
  lemma {:induction false} TaskLeftKept(m: Memory, m': Memory, w: Task, t: Tree)
    requires TaskOk(m, w, t) && Later(m, m') && Unsaved(m') == Unsaved(m)
    ensures TaskLeft(m', w) == TaskLeft(m, w)
  {
    hide Unsaved, Underway, OnTrack, ParentLoaded, ForkAt, FirstDiff, Height, ResultOk, Loaded;
  }

  /** Below a cell that was never saved there is one, perhaps itself, that can be saved next. */
  lemma {:induction false} SomeSavable(m: Memory, id: nat) returns (s: nat)
    requires MemOk(m) && Loaded(m, id) && m.cells[id].ref.None?
    ensures Loaded(m, s) && m.cells[s].ref.None? && AllSaved(m, m.cells[s].forks)
    decreases if id in m.trees then m.trees[id] else Nil
  {
    hide View, KidsOk;
    var cs := m.cells[id].forks;
    LoadedIs(m, id);
    if AllSaved(m, cs) {
      s := id;
    } else {
      var i :| 0 <= i < |cs| && !(cs[i].id in m.cells && m.cells[cs[i].id].ref.Some?);
      KidIs(cs, cs[i], m.trees);
      KidIsEither(m, cs, cs[i]);
      assert View(cs, m.trees)[i].tree < m.trees[id];
      s := SomeSavable(m, cs[i].id);
    }
  }

  // ---------------------------------------------------------------- finds

  ghost function FindLeft(m: Memory, p: FindPhase): nat
  {
    match p
    case Going(id, _) => 2 * HeightAt(m, id) + 1
    case Fetching(id, _) => 2 * HeightAt(m, id) + 2
    case _ => 0
  }

  lemma {:induction false} FindAhead(m: Memory, p: FindPhase, k: Key)
    requires MemOk(m) && p.Going?
    ensures FindLeft(m, FindStep(m, p, k)) < FindLeft(m, p) && !FindStep(m, p, k).Broken?
  {
    hide MemOk, View, KidsOk, ChildAt, ForkAt, FirstDiff, Height;
    if Loaded(m, p.id) {
      LoadedIs(m, p.id);
      var c := m.cells[p.id];
      var po := FirstDiff(c.pinned.value.key, k, p.at);
      ChildAtView(c.forks, po, m.trees);
      if ChildAt(c.forks, po).Some? {
        ForkIsLower(m.trees[p.id], po);
      }
    }
  }

  // ---------------------------------------------------------------- iterations

  lemma WalkNotEmpty(f: Fork, k: Key)
    requires Walkable(f)
    ensures |Walk(f, k)| > 0
  {
    hide Walk;
    WalkEmits(f, k);
    assert f.tree.entry in Entries(f.tree, f.at + 1);
  }

  /** More for every entry to come, and less the later the fork is entered. */
  ghost function Share(f: Fork, k: Key): (s: nat)
    requires f.tree.Node? ==> Walkable(f)
    ensures f.tree.Node? ==> s > 0
  {
    if f.tree.Nil? then 0
    else
      WalkNotEmpty(f, k);
      (DEPTH + 1) * |Walk(f, k)| - if f.at < DEPTH then f.at else DEPTH
  }

  ghost function Shares(fs: seq<Fork>, k: Key): nat
    requires AllWalkable(fs)
  {
    if fs == [] then 0
    else
      assert fs[|fs| - 1] in fs;
      Shares(fs[..|fs| - 1], k) + Share(fs[|fs| - 1], k)
  }

  lemma {:induction false} SharesSnoc(fs: seq<Fork>, f: Fork, k: Key)
    requires AllWalkable(fs) && (f.tree.Node? ==> Walkable(f))
    ensures AllWalkable(fs + [f]) && Shares(fs + [f], k) == Shares(fs, k) + Share(f, k)
  {
    hide Walkable, Share;
    assert (fs + [f])[..|fs|] == fs;
  }

  lemma {:induction false} SharesJoin(fs: seq<Fork>, gs: seq<Fork>, k: Key)
    requires AllWalkable(fs) && AllWalkable(gs)
    ensures AllWalkable(fs + gs) && Shares(fs + gs, k) == Shares(fs, k) + Shares(gs, k)
    decreases |gs|
  {
    hide Walkable, Share;
    if gs == [] {
      assert fs + gs == fs;
    } else {
      var n := |gs| - 1;
      assert gs[n] in gs;
      SharesJoin(fs, gs[..n], k);
      SharesSnoc(fs + gs[..n], gs[n], k);
      assert (fs + gs[..n]) + [gs[n]] == fs + gs;
    }
  }

  lemma {:induction false} SharesBound(fs: seq<Fork>, k: Key)
    requires AllWalkable(fs)
    ensures Shares(fs, k) <= (DEPTH + 1) * |BackList(fs, k)|
  {
    hide Walkable, Walk;
    if fs != [] {
      assert fs[|fs| - 1] in fs;
      SharesBound(fs[..|fs| - 1], k);
    }
  }

  /** The list that takes the place of a fork has the same entries to come, and is entered later. */
  lemma {:induction false} ListIsLess(f: Fork, k: Key)
    requires f.tree.Node? && Walkable(f) && f.size != 1
    ensures AllWalkable(ForkList(f, k)) && Shares(ForkList(f, k), k) < Share(f, k)
  {
    hide Walkable, Walk, WalkOr, BackList, Copy, ForkAt, NewAt, Shares, Share;
    SomeFork(f);
    WalkIsList(f, k);
    var po := FirstDiff(f.tree.entry.key, k, f.at + 1);
    var between, own := Copy(f.tree.forks, f.at + 1, po), NewAt(po, f.tree);
    var cn := if ForkAt(f.tree.forks, po).Some? then ForkAt(f.tree.forks, po).value else Fork(po, Nil, 0);
    ListParts(f, k, between, own, cn);
    BackTwo(between, own, cn, k);
    SharesTwo(between, own, cn, k);
    SharesBound(between, k);
    ShareBound(cn, k);
    OwnShare(f, k, po);
    ShareIs(f, k);
  }

  lemma SharesTwo(fs: seq<Fork>, g: Fork, h: Fork, k: Key)
    requires AllWalkable(fs) && (g.tree.Node? ==> Walkable(g)) && (h.tree.Node? ==> Walkable(h))
    ensures AllWalkable(fs + [g, h]) && Shares(fs + [g, h], k) == Shares(fs, k) + Share(g, k) + Share(h, k)
  {
    hide Walkable, Shares, Share;
    SharesSnoc(fs, g, k);
    SharesSnoc(fs + [g], h, k);
    assert fs + [g] + [h] == fs + [g, h];
  }

  lemma ListParts(f: Fork, k: Key, between: seq<Fork>, own: Fork, cn: Fork)
    requires f.tree.Node? && ForkList(f, k) == between + [own, cn]
    requires forall g | g in ForkList(f, k) :: g.tree.Node? ==> Walkable(g)
    ensures AllWalkable(between) && (own.tree.Node? ==> Walkable(own)) && (cn.tree.Node? ==> Walkable(cn))
  {
    hide Walkable, ForkList;
    var l := between + [own, cn];
    assert l[|between|] == own && l[|between| + 1] == cn;
    assert forall g | g in between :: g in l;
  }

  lemma ShareBound(f: Fork, k: Key)
    requires f.tree.Node? ==> Walkable(f)
    ensures Share(f, k) <= (DEPTH + 1) * |WalkOr(f, k)|
  {
    hide Walkable, Walk;
  }

  lemma ShareIs(f: Fork, k: Key)
    requires f.tree.Node? && Walkable(f) && f.at <= DEPTH
    ensures Share(f, k) == (DEPTH + 1) * |Walk(f, k)| - f.at
  {
    hide Walkable, Walk;
  }

  lemma OwnShare(f: Fork, k: Key, po: nat)
    requires f.tree.Node? && Walkable(f) && f.at < po <= DEPTH
    ensures var own := NewAt(po, f.tree);
            && own.tree.Node? && Walkable(own)
            && WalkOr(own, k) == Walk(own, k) && Share(own, k) < (DEPTH + 1) * |Walk(own, k)| - f.at
  {
    hide Walkable, Walk, Share, SizeFrom;
    NewAtWalkable(f, po);
    ShareIs(NewAt(po, f.tree), k);
  }

  /** What the forks of the list will still take. */
  ghost function ListLeft(m: Memory, todo: seq<Child>, k: Key): nat
  {
    if TodoOk(m, todo) then 6 * Shares(View(todo, m.trees), k) else 0
  }

  /** What the iteration from the located node takes. */
  ghost function FromNode(t: Option<Tree>, p: seq<bool>, k: Key): nat
  {
    if t.None? || t.value.Nil? || !Walkable(TrieIter.Start(t.value, p)) then 0
    else 6 * Share(TrieIter.Start(t.value, p), k) + 4
  }

  ghost function NodeFrom(m: Memory, id: nat, at: nat, p: seq<bool>): Option<Tree>
  {
    if id in m.trees then FindNode(m.trees[id], at, p) else None
  }

  predicate TopLoaded(m: Memory, todo: seq<Child>)
  {
    todo == [] || Loaded(m, todo[|todo| - 1].id)
  }

  ghost function WalkLeft(m: Memory, w: Walker): nat
  {
    match w.phase
    case Seeking(id, at) => 2 * HeightAt(m, id) + 1 + FromNode(NodeFrom(m, id, at, w.p), w.p, w.k)
    case SeekFetching(id, at) => 2 * HeightAt(m, id) + 2 + FromNode(NodeFrom(m, id, at, w.p), w.p, w.k)
    case Listed(todo) => ListLeft(m, todo, w.k) + if TopLoaded(m, todo) then 3 else 5
    case Opening(todo) => ListLeft(m, todo, w.k) + 4
    case Turning(todo, _, _) => ListLeft(m, todo, w.k) + 2
    case Turned(todo, _, _) => ListLeft(m, todo, w.k) + 1
    case _ => 0
  }

  lemma {:induction false} SeekAhead(m: Memory, w: Walker, t: Tree)
    requires MemOk(m) && w.phase.Seeking? && WalkOk(m, w, t) && RootOk(t)
    ensures WalkLeft(m, w.(phase := SeekStep(m, w))) < WalkLeft(m, w) && !SeekStep(m, w).Aborted?
  {
    hide MemOk, View, KidsOk, ChildAt, ForkAt, FirstDiff, Height, ListOk, SizeOf, Walkable, Share, ListLeft,
      FromNode;
    var id, at := w.phase.id, w.phase.at;
    if Loaded(m, id) {
      LoadedIs(m, id);
      var c := m.cells[id];
      var po := FirstDiff(c.pinned.value.key, w.p, at);
      if po < DEPTH && po < |w.p| {
        ChildAtView(c.forks, po, m.trees);
        if ChildAt(c.forks, po).Some? {
          ForkIsLower(m.trees[id], po);
        }
      } else {
        FirstLeft(m, w, id, t);
      }
    }
  }

  lemma {:induction false} TopView(m: Memory, id: nat, p: seq<bool>)
    requires MemOk(m) && Loaded(m, id)
    ensures id in m.trees && m.trees[id].Node?
    ensures var top := [NewChild(|p|, id, m.cells[id].forks)];
            KidsOk(top, m.trees) && View(top, m.trees) == [TrieIter.Start(m.trees[id], p)]
  {
    hide MemOk, View, KidsOk, NewChild, NewAt;
    LoadedIs(m, id);
    NoKids(m.trees);
    ChildAdded(m, [], id, |p|);
    var top := [NewChild(|p|, id, m.cells[id].forks)];
    assert [] + top == top;
  }

  lemma OneShare(f: Fork, k: Key)
    requires f.tree.Node? && Walkable(f)
    ensures AllWalkable([f]) && Shares([f], k) == Share(f, k)
  {
    hide Walkable, Share;
    SharesSnoc([], f, k);
    assert [] + [f] == [f];
  }

  /** The list that begins with the located node. */
  lemma {:induction false} FirstLeft(m: Memory, w: Walker, id: nat, t: Tree)
    requires MemOk(m) && Loaded(m, id) && RootOk(t)
    requires id in m.trees && FindNode(t, 0, w.p) == Some(m.trees[id])
    ensures ListLeft(m, [NewChild(|w.p|, id, m.cells[id].forks)], w.k) + 4 == FromNode(Some(m.trees[id]), w.p, w.k)
  {
    hide MemOk, View, KidsOk, Walkable, NewChild, NewAt, Share, Shares, FindNode, Rest, Walk, RootOk, TodoOk,
      TrieIter.Start;
    LocatedOk(m, w, id, t);
    TopView(m, id, w.p);
    FoundIsWalkable(t, w.p, w.k);
    StartNode(m.trees[id], w.p);
    OneShare(TrieIter.Start(m.trees[id], w.p), w.k);
  }

  lemma StartNode(t: Tree, p: seq<bool>)
    requires t.Node?
    ensures TrieIter.Start(t, p).tree == t
  {
  }

  /** The last fork of the list leaves it. */
  lemma {:induction false} PopLeft(m: Memory, todo: seq<Child>, k: Key)
    requires TodoOk(m, todo) && todo != []
    ensures var n := |todo| - 1;
            && TodoOk(m, todo[..n]) && todo[n].id in m.trees
            && var f := Fork(todo[n].at, m.trees[todo[n].id], todo[n].size);
               Walkable(f) && ListLeft(m, todo, k) == ListLeft(m, todo[..n], k) + 6 * Share(f, k) &&
               ListLeft(m, todo[..n], k) + 6 <= ListLeft(m, todo, k)
  {
    hide Walkable, Share, Walk, BackList;
    var n := |todo| - 1;
    RestSplit(m, todo, k);
    assert View(todo, m.trees)[..n] == View(todo[..n], m.trees);
  }

  lemma {:induction false} ListAhead(m: Memory, w: Walker, stop: bool, t: Tree)
    requires MemOk(m) && w.phase.Listed? && WalkOk(m, w, t)
    ensures WalkLeft(m, ListStep(m, w, stop)) < WalkLeft(m, w) && !ListStep(m, w, stop).phase.Aborted?
  {
    hide MemOk, View, KidsOk, ChildAt, FirstDiff, Walk, Walkable, BackList, TodoOk, Rest, FindNode, ListLeft, Share;
    var todo := w.phase.todo;
    if todo != [] {
      var n := |todo| - 1;
      TodoKids(m, todo);
      KidIsEither(m, todo, todo[n]);
      PopLeft(m, todo, w.k);
    }
  }

  lemma {:induction false} TurnAhead(m: Memory, w: Walker, t: Tree)
    requires MemOk(m) && w.phase.Turned? && WalkOk(m, w, t)
    ensures WalkLeft(m, w.(phase := Turn(m, w.phase))) < WalkLeft(m, w) && !Turn(m, w.phase).Aborted?
  {
    hide MemOk, View, KidsOk, Walk, Walkable, BackList, TodoOk, Rest, FindNode, ForkAt, FirstDiff, Listing, Share,
      ListLeft;
    var todo, po, next := w.phase.todo, w.phase.po, w.phase.next;
    var n := |todo| - 1;
    PopLeft(m, todo, w.k);
    ListingLeft(m, todo[n], w.k, po, next);
    JoinLeft(m, todo[..n], Listing(m, todo[n], po, next), w.k);
  }

  lemma {:induction false} JoinLeft(m: Memory, a: seq<Child>, b: seq<Child>, k: Key)
    requires TodoOk(m, a) && TodoOk(m, b)
    ensures TodoOk(m, a + b) && ListLeft(m, a + b, k) == ListLeft(m, a, k) + ListLeft(m, b, k)
  {
    hide Walkable, BackList, Share;
    RestJoin(m, a, b, k);
    assert View(a + b, m.trees) == View(a, m.trees) + View(b, m.trees);
    SharesJoin(View(a, m.trees), View(b, m.trees), k);
  }

  /** The list in the place of a fork takes less than the fork. */
  lemma {:induction false} ListingLeft(m: Memory, top: Child, k: Key, po: nat, next: Option<Child>)
    requires MemOk(m) && TurnOk(m, [top], k, po, next)
    requires Walkable(Fork(top.at, m.trees[top.id], top.size))
    ensures var l := Listing(m, top, po, next);
            && TodoOk(m, l)
            && ListLeft(m, l, k) + 6 <= 6 * Share(Fork(top.at, m.trees[top.id], top.size), k)
  {
    hide MemOk, View, KidsOk, Walk, Walkable, BackList, ForkAt, FirstDiff, NewChild, NewAt, Copied, Copy, Share;
    var f := Fork(top.at, m.trees[top.id], top.size);
    ListIsWalk(m, top, k, po, next);
    ListIsLess(f, k);
    ListingView(m, top, k, po, next);
    var l := View(Listing(m, top, po, next), m.trees);
    assert l + [] == l;
    if next.None? {
      SharesSnoc(l, Fork(po, Nil, 0), k);
      NilShare(po, k);
    }
  }

  lemma NilShare(po: nat, k: Key)
    ensures Share(Fork(po, Nil, 0), k) == 0
  {
  }

  lemma {:induction false} ListingView(m: Memory, top: Child, k: Key, po: nat, next: Option<Child>)
    requires MemOk(m) && TurnOk(m, [top], k, po, next)
    ensures var l, f := Listing(m, top, po, next), Fork(top.at, m.trees[top.id], top.size);
            && KidsOk(l, m.trees)
            && ForkList(f, k) == View(l, m.trees) + if next.None? then [Fork(po, Nil, 0)] else []
  {
    hide MemOk, View, KidsOk, ForkAt, FirstDiff, NewChild, NewAt, Copied, Copy;
    var cs := m.cells[top.id].forks;
    LoadedIs(m, top.id);
    CopiedView(cs, top.at + 1, po, m.trees);
    var between := Copied(cs, top.at + 1, po);
    ChildAdded(m, between, top.id, po);
    var own := between + [NewChild(po, top.id, cs)];
    if next.None? {
      assert own + [] == own;
    } else {
      ViewJoin(own, next.value, m.trees);
    }
  }

  lemma {:induction false} WalkLeftLater(m: Memory, m': Memory, w: Walker, t: Tree)
    requires WalkOk(m, w, t) && Later(m, m')
    ensures WalkLeft(m', w) <= WalkLeft(m, w)
  {
    hide View, Walk, Walkable, BackList, FindNode, ForkAt, FirstDiff, Height, FromNode, ListLeft, TodoOk, TurnOk, Rest;
    match w.phase
    case Listed(todo) => ListLeftLater(m, m', todo, w.k);
    case Opening(todo) => ListLeftLater(m, m', todo, w.k);
    case Turning(todo, _, _) => ListLeftLater(m, m', todo, w.k);
    case Turned(todo, _, _) => ListLeftLater(m, m', todo, w.k);
    case _ =>
  }

  lemma {:induction false} ListLeftLater(m: Memory, m': Memory, todo: seq<Child>, k: Key)
    requires TodoOk(m, todo) && Later(m, m')
    ensures ListLeft(m', todo, k) == ListLeft(m, todo, k)
    ensures TopLoaded(m, todo) ==> TopLoaded(m', todo)
  {
    hide View, Walkable, Shares;
    ViewLater(todo, m, m');
  }

  // ---------------------------------------------------------------- any read

  ghost function JobLeft(m: Memory, j: Job): nat
  {
    match j
    case Finding(_, p) => FindLeft(m, p)
    case Iterating(w) => WalkLeft(m, w)
  }

  /** The job has given up on a failed read. */
  predicate GaveUp(j: Job)
  {
    match j
    case Finding(_, p) => p.Broken?
    case Iterating(w) => w.phase.Aborted?
  }

  /** The job has ended on its own. */
  predicate Over(j: Job)
  {
    match j
    case Finding(_, p) => p.Answered?
    case Iterating(w) => w.phase.Missing? || w.phase.Ended?
  }

  lemma {:induction false} ContinueAhead(m: Memory, j: Job, stop: bool, t: Tree)
    requires MemOk(m) && Runnable(j) && JobOk(m, j, t) && RootOk(t)
    ensures JobLeft(m, Continue(m, j, stop)) < JobLeft(m, j) && !GaveUp(Continue(m, j, stop))
  {
    hide MemOk, FindOk, WalkOk, RootOk, FindStep, SeekStep, ListStep, Turn, FindLeft, WalkLeft;
    match j
    case Finding(k, p) => FindAhead(m, p, k);
    case Iterating(w) =>
      if w.phase.Seeking? {
        SeekAhead(m, w, t);
      } else if w.phase.Listed? {
        ListAhead(m, w, stop, t);
      } else {
        TurnAhead(m, w, t);
      }
  }

  lemma {:induction false} ReceiveAhead(m: Memory, j: Job, t: Tree)
    requires MemOk(m) && Awaiting(j) && JobOk(m, j, t) && RootOk(t)
    ensures var r := Received(m, j);
            && JobLeft(r.0, r.1) < JobLeft(m, j) && !GaveUp(r.1)
  {
    hide MemOk, RootOk, Filled, Later, FindLeft, WalkLeft, FindOk, WalkOk;
    match j
    case Finding(k, p) => FetchedAhead(m, p, k, t);
    case Iterating(w) => ArrivalAhead(m, w, t);
  }

  lemma {:induction false} FetchedAhead(m: Memory, p: FindPhase, k: Key, t: Tree)
    requires MemOk(m) && p.Fetching? && FindOk(m, p, k, t)
    ensures FindLeft(Filled(m, p.id), Going(p.id, p.at)) < FindLeft(m, p)
  {
    hide MemOk, Filled, Height, Find;
    ArrivalOk(m, p.id);
  }

  lemma {:induction false} ArrivalAhead(m: Memory, w: Walker, t: Tree)
    requires MemOk(m) && WalkOk(m, w, t) && (w.phase.SeekFetching? || w.phase.Opening? || w.phase.Turning?)
    ensures var r := WalkArrival(m, w); WalkLeft(r.0, r.1) < WalkLeft(m, w)
  {
    hide MemOk, Arrive, Height, FindNode, FromNode, ListLeft, TodoOk, Rest, Walk, Walkable, TurnOk;
    var id := AwaitedBy(w.phase);
    ArrivalOk(m, id);
    ArriveOk(m, id);
    if w.phase.Opening? || w.phase.Turning? {
      ListLeftLater(m, Filled(m, id), w.phase.todo, w.k);
    }
  }

  lemma {:induction false} JobLeftLater(m: Memory, m': Memory, j: Job, t: Tree)
    requires JobOk(m, j, t) && RootOk(t) && Later(m, m')
    ensures JobLeft(m', j) <= JobLeft(m, j)
  {
    hide RootOk, WalkOk, WalkLeft, Height, Find, Loaded;
    match j
    case Finding(k, p) =>
    case Iterating(w) => WalkLeftLater(m, m', w, t);
  }
}
