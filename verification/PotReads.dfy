/**
 * Finds and iterations, cut at their awaits. A step runs from one await to the next; between two
 * steps anything else may have happened to the memory.
 */
module PotReads {
  import opened Bits
  import opened Wrappers
  import opened Trie
  import opened TrieUpdate
  import opened TrieMap
  import opened TrieIter
  import opened Store
  import opened PotArena
  import opened PotSplices

  // ---------------------------------------------------------------- find

  /** At a cell that is in memory, waiting for a cell to be read, or over. */
  datatype FindPhase = Going(id: nat, at: nat) | Fetching(id: nat, at: nat) | Answered(answer: Option<Entry>) | Broken

  /** findInner up to the next await. */
  function FindStep(m: Memory, p: FindPhase, k: Key): FindPhase
    requires p.Going?
  {
    var c := CellOf(m, p.id);
    if c.pinned.None? then Answered(None)
    else
      var po := FirstDiff(c.pinned.value.key, k, p.at);
      if po >= DEPTH then Answered(c.pinned)
      else match ChildAt(c.forks, po)
        case None => Answered(None)
        case Some(n) => if CellOf(m, n.id).NeedsUnpack() then Fetching(n.id, po) else Going(n.id, po)
  }

  /** Whatever happened since, the search will find what the tree it began with has. */
  ghost predicate FindOk(m: Memory, p: FindPhase, k: Key, t: Tree)
  {
    match p
    case Going(id, at) => Entered(m, id) && Find(m.trees[id], at, k) == Find(t, 0, k)
    case Fetching(id, at) => Requested(m, id) && Find(m.trees[id], at, k) == Find(t, 0, k)
    case Answered(e) => e == Find(t, 0, k)
    case Broken => true
  }

  lemma FindLater(m: Memory, m': Memory, p: FindPhase, k: Key, t: Tree)
    requires FindOk(m, p, k, t) && Later(m, m') && MemOk(m')
    ensures FindOk(m', p, k, t)
  {
    hide Find, View;
    if p.Going? {
      EnteredLater(m, m', p.id);
    }
  }

  lemma {:induction false} FindStepOk(m: Memory, p: FindPhase, k: Key, t: Tree)
    requires MemOk(m) && p.Going? && FindOk(m, p, k, t)
    ensures FindOk(m, FindStep(m, p, k), k, t)
  {
    hide MemOk, View, KidsOk, ChildAt, ForkAt, FirstDiff;
    if Loaded(m, p.id) {
      LoadedIs(m, p.id);
      var c := m.cells[p.id];
      var po := FirstDiff(c.pinned.value.key, k, p.at);
      ChildAtView(c.forks, po, m.trees);
      var n := ChildAt(c.forks, po);
      if n.Some? {
        KidIsEither(m, c.forks, n.value);
      }
    }
  }

  lemma {:induction false} FetchedOk(m: Memory, p: FindPhase, k: Key, t: Tree)
    requires MemOk(m) && p.Fetching? && FindOk(m, p, k, t)
    ensures FindOk(Filled(m, p.id), Going(p.id, p.at), k, t)
  {
    hide MemOk, Arrive, Find;
    ArriveOk(m, p.id);
  }

  // ---------------------------------------------------------------- iterate

  /**
   * Looking for the node with the prefix, or working off a list of forks from its end: about to look
   * at the last one, waiting for it, waiting for its fork towards the pivot, or back from there.
   */
  datatype WalkPhase =
    | Seeking(id: nat, at: nat)
    | SeekFetching(id: nat, at: nat)
    | Listed(todo: seq<Child>)
    | Opening(todo: seq<Child>)
    | Turning(todo: seq<Child>, po: nat, child: Child)
    | Turned(todo: seq<Child>, po: nat, next: Option<Child>)
    | Missing
    | Ended(stopped: bool)
    | Aborted

  /** `log` is what the callback has seen. */
  datatype Walker = Walker(p: seq<bool>, k: Key, log: seq<Entry>, phase: WalkPhase)

  /** findNode up to the next await. */
  function SeekStep(m: Memory, w: Walker): WalkPhase
    requires w.phase.Seeking?
  {
    var id := w.phase.id;
    var c := CellOf(m, id);
    if c.pinned.None? then Missing
    else
      var po := FirstDiff(c.pinned.value.key, w.p, w.phase.at);
      if po < DEPTH && po < |w.p| then
        match ChildAt(c.forks, po)
        case None => Missing
        case Some(n) => if CellOf(m, n.id).NeedsUnpack() then SeekFetching(n.id, po) else Seeking(n.id, po)
      else Listed([NewChild(|w.p|, id, c.forks)])
  }

  /** iterateInner on the last fork of the list, up to the next await; `stop` is the callback's answer. */
  function ListStep(m: Memory, w: Walker, stop: bool): Walker
    requires w.phase.Listed?
  {
    var todo := w.phase.todo;
    if todo == [] then w.(phase := Ended(false))
    else
      var n := |todo| - 1;
      var top := todo[n];
      var c := CellOf(m, top.id);
      if c.NeedsUnpack() then w.(phase := Opening(todo))
      else if c.pinned.None? then w.(phase := Listed(todo[..n]))
      else if top.size == 1 then
        w.(log := w.log + [c.pinned.value], phase := if stop then Ended(true) else Listed(todo[..n]))
      else
        var po := FirstDiff(c.pinned.value.key, w.k, top.at + 1);
        match ChildAt(c.forks, po)
        case None => w.(phase := Turned(todo, po, None))
        case Some(n) =>
          w.(phase := if CellOf(m, n.id).NeedsUnpack() then Turning(todo, po, n) else Turned(todo, po, Some(n)))
  }

  /** The forks that take the place of the last one. */
  function Turn(m: Memory, p: WalkPhase): WalkPhase
    requires p.Turned?
  {
    var n := |p.todo| - 1;
    if n < 0 then Listed([]) else Listed(p.todo[..n] + Listing(m, p.todo[n], p.po, p.next))
  }

  /** The forks before the pivot's, the node itself behind the pivot, and the pivot's fork. */
  function Listing(m: Memory, top: Child, po: nat, next: Option<Child>): seq<Child>
  {
    var cs := CellOf(m, top.id).forks;
    Copied(cs, top.at + 1, po) + [NewChild(po, top.id, cs)] + if next.Some? then [next.value] else []
  }

  function AwaitedBy(p: WalkPhase): nat
  {
    match p
    case SeekFetching(id, _) => id
    case Opening(todo) => if todo == [] then 0 else todo[|todo| - 1].id
    case Turning(_, _, child) => child.id
    case _ => 0
  }

  /** The read that the iteration waits for arrives. */
  ghost function WalkArrival(m: Memory, w: Walker): (Memory, Walker)
    requires w.phase.SeekFetching? || w.phase.Opening? || w.phase.Turning?
  {
    (Filled(m, AwaitedBy(w.phase)),
     w.(phase := match w.phase
                 case SeekFetching(id, at) => Seeking(id, at)
                 case Opening(todo) => Listed(todo)
                 case Turning(todo, po, child) => Turned(todo, po, Some(child))))
  }

  /** The forks still to be gone through, and what they will emit. */
  ghost predicate TodoOk(m: Memory, todo: seq<Child>)
  {
    KidsOk(todo, m.trees) && forall f | f in View(todo, m.trees) :: Walkable(f)
  }

  ghost function Rest(m: Memory, todo: seq<Child>, k: Key): seq<Entry>
    requires TodoOk(m, todo)
  {
    BackList(View(todo, m.trees), k)
  }

  /** What the callback has seen and what is still to come is the walk from the located node. */
  ghost predicate ListOk(m: Memory, p: seq<bool>, k: Key, log: seq<Entry>, todo: seq<Child>, t: Tree)
  {
    var g := FindNode(t, 0, p);
    && TodoOk(m, todo)
    && g.Some? && g.value.Node? && Walkable(TrieIter.Start(g.value, p))
    && log + Rest(m, todo, k) == Walk(TrieIter.Start(g.value, p), k)
  }

  /** The last fork of the list is in memory, and `po` and `next` are where the pivot leaves it. */
  ghost predicate TurnOk(m: Memory, todo: seq<Child>, k: Key, po: nat, next: Option<Child>)
  {
    && todo != [] && var top := todo[|todo| - 1];
    && Loaded(m, top.id) && top.id in m.trees && m.trees[top.id].Node? && top.size != 1
    && po == FirstDiff(m.trees[top.id].entry.key, k, top.at + 1)
    && match next
       case None => ForkAt(m.trees[top.id].forks, po).None?
       case Some(c) => c.id in m.trees && m.trees[c.id].Node? &&
                       ForkAt(m.trees[top.id].forks, po) == Some(Fork(c.at, m.trees[c.id], c.size))
  }

  /** Whatever happened since, the iteration sees the tree it began with. */
  ghost predicate WalkOk(m: Memory, w: Walker, t: Tree)
  {
    var g := FindNode(t, 0, w.p);
    match w.phase
    case Seeking(id, at) => w.log == [] && Entered(m, id) && FindNode(m.trees[id], at, w.p) == g
    case SeekFetching(id, at) => w.log == [] && Requested(m, id) && FindNode(m.trees[id], at, w.p) == g
    case Listed(todo) => ListOk(m, w.p, w.k, w.log, todo, t)
    case Opening(todo) => ListOk(m, w.p, w.k, w.log, todo, t) && todo != [] && Requested(m, todo[|todo| - 1].id)
    case Turning(todo, po, child) =>
      ListOk(m, w.p, w.k, w.log, todo, t) && TurnOk(m, todo, w.k, po, Some(child)) && Requested(m, child.id)
    case Turned(todo, po, next) =>
      ListOk(m, w.p, w.k, w.log, todo, t) && TurnOk(m, todo, w.k, po, next) && (next.Some? ==> Loaded(m, next.value.id))
    case Missing => g.None? && w.log == []
    case Ended(stopped) =>
      g.Some? && g.value.Node? && Walkable(TrieIter.Start(g.value, w.p)) &&
      var all := Walk(TrieIter.Start(g.value, w.p), w.k);
      if stopped then w.log != [] && w.log <= all else w.log == all
    case Aborted => SoFar(w, g)
  }

  /** The callback has seen the beginning of the walk from the located node. */
  ghost predicate SoFar(w: Walker, g: Option<Tree>)
  {
    if g.None? then w.log == []
    else
      g.value.Node? && Walkable(TrieIter.Start(g.value, w.p)) && w.log <= Walk(TrieIter.Start(g.value, w.p), w.k)
  }

  /** At every moment. */
  lemma {:induction false} AlwaysSoFar(m: Memory, w: Walker, t: Tree)
    requires WalkOk(m, w, t) && RootOk(t)
    ensures SoFar(w, FindNode(t, 0, w.p))
  {
    hide View, Walk, Walkable, BackList, FindNode, TodoOk, Rest, RootOk, ForkAt, FirstDiff;
    if FindNode(t, 0, w.p).Some? {
      FoundIsWalkable(t, w.p, w.k);
    }
  }

  lemma ListLater(m: Memory, m': Memory, w: Walker, todo: seq<Child>, t: Tree)
    requires ListOk(m, w.p, w.k, w.log, todo, t) && Later(m, m')
    ensures ListOk(m', w.p, w.k, w.log, todo, t)
  {
    hide View, Walk, Walkable, BackList;
    ViewLater(todo, m, m');
  }

  lemma WalkLater(m: Memory, m': Memory, w: Walker, t: Tree)
    requires WalkOk(m, w, t) && Later(m, m') && MemOk(m')
    ensures WalkOk(m', w, t)
  {
    hide View, Walk, Walkable, BackList, ListOk, FindNode, MemOk, ForkAt, FirstDiff;
    match w.phase
    case Seeking(id, at) => EnteredLater(m, m', id);
    case Listed(todo) => ListLater(m, m', w, todo, t);
    case Opening(todo) => ListLater(m, m', w, todo, t);
    case Turning(todo, po, child) => ListLater(m, m', w, todo, t);
    case Turned(todo, po, next) => ListLater(m, m', w, todo, t);
    case _ =>
  }

  lemma {:induction false} SeekStepOk(m: Memory, w: Walker, t: Tree)
    requires MemOk(m) && w.phase.Seeking? && WalkOk(m, w, t) && RootOk(t)
    ensures WalkOk(m, w.(phase := SeekStep(m, w)), t)
  {
    hide MemOk, View, KidsOk, ChildAt, ForkAt, FirstDiff, ListOk, NewChild;
    var id := w.phase.id;
    if Loaded(m, id) {
      LoadedIs(m, id);
      var c := m.cells[id];
      var po := FirstDiff(c.pinned.value.key, w.p, w.phase.at);
      if po < DEPTH && po < |w.p| {
        ChildAtView(c.forks, po, m.trees);
        var n := ChildAt(c.forks, po);
        if n.Some? {
          KidIsEither(m, c.forks, n.value);
        }
      } else {
        LocatedOk(m, w, id, t);
      }
    }
  }

  /** The search has ended at cell `id`: the list begins with it. */
  lemma {:induction false} LocatedOk(m: Memory, w: Walker, id: nat, t: Tree)
    requires MemOk(m) && Loaded(m, id) && RootOk(t)
    requires id in m.trees && FindNode(t, 0, w.p) == Some(m.trees[id])
    ensures ListOk(m, w.p, w.k, [], [NewChild(|w.p|, id, m.cells[id].forks)], t)
  {
    hide MemOk, View, KidsOk, Walk, Walkable, NewChild, NewAt;
    FoundIsWalkable(t, w.p, w.k);
    NoKids(m.trees);
    ChildAdded(m, [], id, |w.p|);
    var top := [NewChild(|w.p|, id, m.cells[id].forks)];
    var f := TrieIter.Start(m.trees[id], w.p);
    assert [] + top == top && View(top, m.trees) == [f];
    assert forall g | g in [f] :: g == f;
    OneFork(f, w.k);
    assert [] + Rest(m, top, w.k) == Rest(m, top, w.k);
  }

  lemma FoundIsWalkable(t: Tree, p: seq<bool>, k: Key)
    requires RootOk(t) && FindNode(t, 0, p).Some?
    ensures FindNode(t, 0, p).value.Node? && Walkable(TrieIter.Start(FindNode(t, 0, p).value, p))
  {
    hide Walk, Walkable, Valid, Sharing;
    IterateEmits(t, p, k);
  }

  lemma {:induction false} BackSnoc(fs: seq<Fork>, f: Fork, k: Key)
    requires (forall g | g in fs :: g.tree.Node? ==> Walkable(g)) && (f.tree.Node? ==> Walkable(f))
    ensures BackList(fs + [f], k) == WalkOr(f, k) + BackList(fs, k)
  {
    hide Walkable, WalkOr;
    assert (fs + [f])[..|fs|] == fs;
  }

  lemma OneFork(f: Fork, k: Key)
    requires Walkable(f)
    ensures BackList([f], k) == Walk(f, k)
  {
    BackSnoc([], f, k);
    assert [] + [f] == [f] && BackList([], k) == [];
  }

  lemma {:induction false} RestSplit(m: Memory, todo: seq<Child>, k: Key)
    requires TodoOk(m, todo) && todo != []
    ensures var n := |todo| - 1;
            && TodoOk(m, todo[..n]) && todo[n] in todo && todo[n].id in m.trees
            && var f := Fork(todo[n].at, m.trees[todo[n].id], todo[n].size);
               Walkable(f) && Rest(m, todo, k) == Walk(f, k) + Rest(m, todo[..n], k)
  {
    hide Walkable;
    var n := |todo| - 1;
    var v := View(todo, m.trees);
    assert v[..n] == View(todo[..n], m.trees);
    assert v[n] in v;
  }

  lemma WalkOne(f: Fork, k: Key)
    requires Walkable(f) && f.size == 1
    ensures Walk(f, k) == [f.tree.entry]
  {
  }

  lemma {:induction false} ListStepOk(m: Memory, w: Walker, stop: bool, t: Tree)
    requires MemOk(m) && w.phase.Listed? && WalkOk(m, w, t)
    ensures WalkOk(m, ListStep(m, w, stop), t)
  {
    hide MemOk, View, KidsOk, ChildAt, ForkAt, FirstDiff, Walk, Walkable, BackList, TodoOk, Rest, FindNode;
    var todo := w.phase.todo;
    if todo == [] {
      NothingToDo(m, w.k);
    } else {
      var n := |todo| - 1;
      RestSplit(m, todo, w.k);
      TodoKids(m, todo);
      KidIsEither(m, todo, todo[n]);
      if Loaded(m, todo[n].id) {
        OpenStepOk(m, w, stop, t);
      }
    }
  }

  lemma NothingToDo(m: Memory, k: Key)
    ensures TodoOk(m, []) && Rest(m, [], k) == []
  {
  }

  lemma TodoKids(m: Memory, todo: seq<Child>)
    requires TodoOk(m, todo)
    ensures KidsOk(todo, m.trees)
  {
  }

  /** The last fork of the list is in memory. */
  lemma {:induction false} OpenStepOk(m: Memory, w: Walker, stop: bool, t: Tree)
    requires MemOk(m) && w.phase.Listed? && WalkOk(m, w, t)
    requires var todo := w.phase.todo; todo != [] && Loaded(m, todo[|todo| - 1].id)
    ensures WalkOk(m, ListStep(m, w, stop), t)
  {
    hide MemOk, View, KidsOk, ChildAt, ForkAt, FirstDiff, Walk, Walkable, BackList, TodoOk, Rest, FindNode;
    var todo := w.phase.todo;
    var n := |todo| - 1;
    var c := m.cells[todo[n].id];
    RestSplit(m, todo, w.k);
    LoadedIs(m, todo[n].id);
    if todo[n].size == 1 {
      WalkOne(Fork(todo[n].at, m.trees[todo[n].id], 1), w.k);
      assert w.log + ([c.pinned.value] + Rest(m, todo[..n], w.k)) == w.log + [c.pinned.value] + Rest(m, todo[..n], w.k);
    } else {
      var po := FirstDiff(c.pinned.value.key, w.k, todo[n].at + 1);
      ChildAtView(c.forks, po, m.trees);
      if ChildAt(c.forks, po).Some? {
        KidIs(c.forks, ChildAt(c.forks, po).value, m.trees);
        KidIsEither(m, c.forks, ChildAt(c.forks, po).value);
      }
    }
  }

  ghost predicate AllWalkable(fs: seq<Fork>)
  {
    forall g | g in fs :: g.tree.Node? ==> Walkable(g)
  }

  lemma {:induction false} BackJoin(fs: seq<Fork>, gs: seq<Fork>, k: Key)
    requires AllWalkable(fs) && AllWalkable(gs)
    ensures AllWalkable(fs + gs) && BackList(fs + gs, k) == BackList(gs, k) + BackList(fs, k)
    decreases |gs|
  {
    hide Walkable, WalkOr;
    if gs == [] {
      assert fs + gs == fs;
    } else {
      BackStep(fs, gs, k);
      BackJoin(fs, gs[..|gs| - 1], k);
    }
  }

  lemma {:induction false} BackStep(fs: seq<Fork>, gs: seq<Fork>, k: Key)
    requires AllWalkable(fs) && AllWalkable(gs) && gs != []
    ensures var n := |gs| - 1;
            && AllWalkable(gs[..n]) && AllWalkable(fs + gs[..n]) && AllWalkable(fs + gs)
            && (gs[n].tree.Node? ==> Walkable(gs[n]))
            && BackList(gs, k) == WalkOr(gs[n], k) + BackList(gs[..n], k)
            && BackList(fs + gs, k) == WalkOr(gs[n], k) + BackList(fs + gs[..n], k)
  {
    hide Walkable, WalkOr, BackList;
    var n := |gs| - 1;
    assert gs[n] in gs;
    BackSnoc(gs[..n], gs[n], k);
    BackSnoc(fs + gs[..n], gs[n], k);
    assert gs == gs[..n] + [gs[n]];
    assert fs + gs == (fs + gs[..n]) + [gs[n]];
  }

  lemma {:induction false} TurnStepOk(m: Memory, w: Walker, t: Tree)
    requires MemOk(m) && w.phase.Turned? && WalkOk(m, w, t)
    ensures WalkOk(m, w.(phase := Turn(m, w.phase)), t)
  {
    hide MemOk, View, KidsOk, Walk, Walkable, BackList, TodoOk, Rest, FindNode, ForkAt, FirstDiff, Listing;
    var todo, po, next := w.phase.todo, w.phase.po, w.phase.next;
    var n := |todo| - 1;
    RestSplit(m, todo, w.k);
    ListIsWalk(m, todo[n], w.k, po, next);
    RestJoin(m, todo[..n], Listing(m, todo[n], po, next), w.k);
  }

  lemma {:induction false} RestJoin(m: Memory, a: seq<Child>, b: seq<Child>, k: Key)
    requires TodoOk(m, a) && TodoOk(m, b)
    ensures TodoOk(m, a + b) && Rest(m, a + b, k) == Rest(m, b, k) + Rest(m, a, k)
  {
    hide Walkable, BackList;
    assert View(a + b, m.trees) == View(a, m.trees) + View(b, m.trees);
    BackJoin(View(a, m.trees), View(b, m.trees), k);
  }

  lemma TodoIs(m: Memory, cs: seq<Child>)
    requires KidsOk(cs, m.trees) && forall g | g in View(cs, m.trees) :: g.tree.Node? ==> Walkable(g)
    ensures TodoOk(m, cs)
  {
    hide Walkable;
  }

  /** The list emits what the walk of the fork emits. */
  lemma {:induction false} ListIsWalk(m: Memory, top: Child, k: Key, po: nat, next: Option<Child>)
    requires MemOk(m) && TurnOk(m, [top], k, po, next)
    requires Walkable(Fork(top.at, m.trees[top.id], top.size))
    ensures var l := Listing(m, top, po, next);
            TodoOk(m, l) && Rest(m, l, k) == Walk(Fork(top.at, m.trees[top.id], top.size), k)
  {
    hide MemOk, View, KidsOk, Walk, Walkable, BackList, ForkAt, FirstDiff, NewChild, NewAt, Copied, Copy;
    var cs, f := m.cells[top.id].forks, Fork(top.at, m.trees[top.id], top.size);
    LoadedIs(m, top.id);
    WalkIsList(f, k);
    CopiedView(cs, top.at + 1, po, m.trees);
    var between := Copied(cs, top.at + 1, po);
    ChildAdded(m, between, top.id, po);
    var own := between + [NewChild(po, top.id, cs)];
    var v := View(own, m.trees);
    assert v == Copy(f.tree.forks, f.at + 1, po) + [NewAt(po, f.tree)];
    assert forall g | g in v :: g in ForkList(f, k);
    if next.None? {
      assert own + [] == own;
      assert ForkList(f, k) == v + [Fork(po, Nil, 0)];
      BackSnoc(v, Fork(po, Nil, 0), k);
      TodoIs(m, own);
    } else {
      ViewJoin(own, next.value, m.trees);
      assert ForkList(f, k) == v + [Fork(next.value.at, m.trees[next.value.id], next.value.size)];
      TodoIs(m, own + [next.value]);
    }
  }

  lemma {:induction false} WalkArrivalOk(m: Memory, w: Walker, t: Tree)
    requires MemOk(m) && WalkOk(m, w, t) && (w.phase.SeekFetching? || w.phase.Opening? || w.phase.Turning?)
    ensures var r := WalkArrival(m, w); WalkOk(r.0, r.1, t)
  {
    hide MemOk, View, KidsOk, Walk, Walkable, BackList, ListOk, FindNode, ForkAt, FirstDiff, Arrive, Later;
    var r := WalkArrival(m, w);
    ArrivalOk(m, AwaitedBy(w.phase));
    ArriveOk(m, AwaitedBy(w.phase));
    WalkLater(m, r.0, w, t);
  }

  // ---------------------------------------------------------------- any read

  datatype Job = Finding(k: Key, find: FindPhase) | Iterating(walk: Walker)

  /** The job can go on without waiting. */
  predicate Runnable(j: Job)
  {
    match j
    case Finding(_, p) => p.Going?
    case Iterating(w) => w.phase.Seeking? || w.phase.Listed? || w.phase.Turned?
  }

  /** The job waits for a cell to be read. */
  predicate Awaiting(j: Job)
  {
    match j
    case Finding(_, p) => p.Fetching?
    case Iterating(w) => w.phase.SeekFetching? || w.phase.Opening? || w.phase.Turning?
  }

  /** On to the next await; `stop` is what the callback answers, if it is called. */
  function Continue(m: Memory, j: Job, stop: bool): Job
    requires Runnable(j)
  {
    match j
    case Finding(k, p) => Finding(k, FindStep(m, p, k))
    case Iterating(w) =>
      Iterating(if w.phase.Seeking? then w.(phase := SeekStep(m, w))
                else if w.phase.Listed? then ListStep(m, w, stop)
                else w.(phase := Turn(m, w.phase)))
  }

  ghost function Received(m: Memory, j: Job): (Memory, Job)
    requires Awaiting(j)
  {
    match j
    case Finding(k, p) => (Filled(m, p.id), Finding(k, Going(p.id, p.at)))
    case Iterating(w) => var r := WalkArrival(m, w); (r.0, Iterating(r.1))
  }

  function Refused(j: Job): Job
  {
    match j
    case Finding(k, _) => Finding(k, Broken)
    case Iterating(w) => Iterating(w.(phase := Aborted))
  }

  /** The job answers for the tree `t` that it began with. */
  ghost predicate JobOk(m: Memory, j: Job, t: Tree)
  {
    match j
    case Finding(k, p) => FindOk(m, p, k, t)
    case Iterating(w) => RootOk(t) ==> WalkOk(m, w, t)
  }

  lemma JobLater(m: Memory, m': Memory, j: Job, t: Tree)
    requires JobOk(m, j, t) && Later(m, m') && MemOk(m')
    ensures JobOk(m', j, t)
  {
    hide MemOk, Later, FindOk, WalkOk, RootOk;
    match j
    case Finding(k, p) => FindLater(m, m', p, k, t);
    case Iterating(w) => if RootOk(t) { WalkLater(m, m', w, t); }
  }

  lemma ContinueOk(m: Memory, j: Job, stop: bool, t: Tree)
    requires MemOk(m) && Runnable(j) && JobOk(m, j, t)
    ensures JobOk(m, Continue(m, j, stop), t)
  {
    hide MemOk, FindOk, WalkOk, RootOk, FindStep, SeekStep, ListStep, Turn;
    match j
    case Finding(k, p) => FindStepOk(m, p, k, t);
    case Iterating(w) =>
      if RootOk(t) {
        if w.phase.Seeking? {
          SeekStepOk(m, w, t);
        } else if w.phase.Listed? {
          ListStepOk(m, w, stop, t);
        } else {
          TurnStepOk(m, w, t);
        }
      }
  }

  /** A refused read ends the job where it is. */
  lemma {:induction false} RefusedOk(m: Memory, j: Job, t: Tree)
    requires Awaiting(j) && JobOk(m, j, t)
    ensures JobOk(m, Refused(j), t)
  {
    hide RootOk, WalkOk, Walk, Walkable, FindNode, Find, SoFar;
    match j
    case Finding(_, _) =>
    case Iterating(w) =>
      if RootOk(t) {
        AlwaysSoFar(m, w, t);
        AbortedIs(m, w, t);
      }
  }

  lemma AbortedIs(m: Memory, w: Walker, t: Tree)
    requires SoFar(w, FindNode(t, 0, w.p))
    ensures WalkOk(m, w.(phase := Aborted), t)
  {
    hide Walk, Walkable, FindNode;
  }

  lemma ReceivedOk(m: Memory, j: Job, t: Tree)
    requires MemOk(m) && Awaiting(j) && JobOk(m, j, t)
    ensures var r := Received(m, j); MemOk(r.0) && Later(m, r.0) && JobOk(r.0, r.1, t)
  {
    hide MemOk, Later, FindOk, WalkOk, RootOk, Filled;
    match j
    case Finding(k, p) =>
      ArrivalOk(m, p.id);
      FetchedOk(m, p, k, t);
    case Iterating(w) =>
      ArrivalOk(m, AwaitedBy(w.phase));
      if RootOk(t) {
        WalkArrivalOk(m, w, t);
      }
  }
}
