/**
 * One find or one update, cut at its awaits. A step runs from one await to the next; between two
 * steps anything else may have happened to the memory.
 */
module PotTasks {
  import opened Bits
  import opened Wrappers
  import opened Trie
  import opened TrieReload
  import opened Store
  import opened PotArena
  import opened PotSplices

  /** What a new cell stands for. */
  ghost function Meaning(c: Cell, trees: map<nat, Tree>): Tree
  {
    if c.pinned.Some? && KidsOk(c.forks, trees) then Node(c.pinned.value, View(c.forks, trees)) else Nil
  }

  ghost function New(m: Memory, c: Cell): Memory
  {
    Alloc(m, c, Meaning(c, m.trees))
  }

  // ---------------------------------------------------------------- update

  /**
   * About to look at a cell, waiting for its child to be read, back from findNext, or back from
   * updateInner with its result.
   */
  datatype Phase =
    | At(id: nat, at: nat)
    | Reading(id: nat, at: nat, po: nat, child: Child)
    | Ready(id: nat, at: nat, po: nat, next: Option<Child>)
    | Back(res: Option<nat>)

  /**
   * `frames` are the calls of updateInner that wait for the subtree under their fork 0, `acc` is the
   * node being filled, and `loaded` says what a removal found in memory.
   */
  datatype Task = Task(k: Key, e: Option<Entry>, frames: seq<nat>, acc: seq<Child>, phase: Phase, loaded: nat)

  function Begin(k: Key, e: Option<Entry>, root: nat): Task
  {
    Task(k, e, [], [], At(root, 0), 1)
  }

  /** updateInner has filled a new node. */
  ghost function Finish(m: Memory, t: Task, c: Cell): (Memory, Task)
  {
    (New(m, c), t.(phase := Back(Some(m.next))))
  }

  /** From the entry of updateInner to the await in findNext. */
  ghost function Looked(m: Memory, t: Task): (Memory, Task)
    requires t.phase.At?
  {
    var id, at := t.phase.id, t.phase.at;
    var c := CellOf(m, id);
    if c.pinned.None? then
      if t.e.None? then (m, t.(phase := Back(None))) else Finish(m, t, Cell(t.acc, t.e, None))
    else
      var po := FirstDiff(c.pinned.value.key, t.k, at);
      var next := if po >= DEPTH then None else ChildAt(c.forks, po);
      if next.Some? && CellOf(m, next.value.id).NeedsUnpack() then (m, t.(phase := Reading(id, at, po, next.value)))
      else (m, t.(phase := Ready(id, at, po, next)))
  }

  /** The read of the child arrives. */
  ghost function Read(m: Memory, t: Task): (Memory, Task)
    requires t.phase.Reading?
  {
    (Filled(m, t.phase.child.id), t.(phase := Ready(t.phase.id, t.phase.at, t.phase.po, Some(t.phase.child))))
  }

  /** How many nodes of the chain below `id` a removal finds in memory, 1 if there is no chain. */
  ghost function Reach(m: Memory, id: nat, at: nat): nat
  {
    if !MemOk(m) || !Loaded(m, id) || LastChild(m.cells[id].forks, at).None? then 1 else Chain(m, id, at)
  }

  ghost function Remove(m: Memory, t: Task, id: nat, at: nat): (Memory, Task)
  {
    if MemOk(m) && Loaded(m, id) then Finish(m, t.(loaded := Reach(m, id, at)), Pulled(m, t.acc, id, at))
    else (m, t)
  }

  /** From the return of findNext to the next await. */
  ghost function Acted(m: Memory, t: Task): (Memory, Task)
    requires t.phase.Ready?
  {
    var id, at, po, child := t.phase.id, t.phase.at, t.phase.po, t.phase.next;
    var c := CellOf(m, id);
    if po >= DEPTH then
      if t.e.None? then Remove(m, t, id, at)
      else if c.pinned.Some? && t.e.value.value == c.pinned.value.value then (m, t.(phase := Back(None)))
      else Finish(m, t, Cell(Whacked(t.acc, id, c.forks, at, [], DEPTH), t.e, None))
    else if child.None? || CellOf(m, child.value.id).pinned.None? then
      if t.e.None? then (m, t.(phase := Back(None)))
      else Finish(m, t, Cell(Whirled(t.acc, id, c.forks, at, po), t.e, None))
    else if po == 0 then
      (m, t.(frames := t.frames + [id], phase := At(child.value.id, 0)))
    else
      (m, t.(acc := Whirled(t.acc, id, c.forks, at, po), phase := At(child.value.id, po + 1)))
  }

  /** The subtree under fork 0 of the last frame is done. */
  ghost function Joined(m: Memory, t: Task): (Memory, Task)
    requires t.phase.Back? && t.frames != []
  {
    var n := |t.frames| - 1;
    var f := CellOf(m, t.frames[n]);
    var r := if t.phase.res.Some? then CellOf(m, t.phase.res.value) else Cell([], None, None);
    Finish(m, t.(frames := t.frames[..n]),
           if r.pinned.None? then Cell(Wedged(t.acc, f.forks, 0, 0), f.pinned, None)
           else Cell(Whacked([], t.phase.res.value, r.forks, -1, f.forks, 0), f.pinned, None))
  }

  // ---------------------------------------------------------------- what an update keeps to

  /** The result at a node whose fork 0 was updated to `r`. */
  ghost function AtZero(t: Tree, r: Option<Tree>): Option<Tree>
  {
    if t.Nil? then r
    else Some(Node(t.entry, if r.None? || r.value.Nil? then Wedge([], t, 0, 0) else Whack([], r.value, -1, t, 0)))
  }

  ghost function Wrap(frames: seq<nat>, trees: map<nat, Tree>, r: Option<Tree>): Option<Tree>
  {
    if frames == [] then r
    else
      var n := |frames| - 1;
      Wrap(frames[..n], trees, if frames[n] in trees then AtZero(trees[frames[n]], r) else r)
  }

  /** From `id` on, the update does what the specified update of `t` does, whatever is in memory. */
  ghost predicate OnTrack(m: Memory, w: Task, id: nat, at: nat, t: Tree)
    requires KidsOk(w.acc, m.trees) && id in m.trees
  {
    && (Bare(m.trees[id], at, w.k) <==> Bare(t, 0, w.k))
    && forall n: nat :: Wrap(w.frames, m.trees, UpdateInner(View(w.acc, m.trees), m.trees[id], at, w.k, w.e, n)) ==
                        Update(t, w.k, w.e, n)
  }

  /** `po` and `child` are where the search leaves cell `id`. */
  ghost predicate Leaves(m: Memory, id: nat, at: nat, k: Key, po: nat, child: Option<Child>)
  {
    && Loaded(m, id) && id in m.trees && m.trees[id].Node? && po == FirstDiff(m.trees[id].entry.key, k, at)
    && match child
       case None => po >= DEPTH || ForkAt(m.trees[id].forks, po).None?
       case Some(c) =>
         po < DEPTH && c.id in m.trees && ForkAt(m.trees[id].forks, po) ==
         Some(Fork(po, m.trees[c.id], c.size))
  }

  ghost predicate Underway(m: Memory, w: Task)
  {
    && KidsOk(w.acc, m.trees) && w.loaded == 1
    && forall f | f in w.frames :: Loaded(m, f)
  }

  ghost predicate ResultOk(m: Memory, w: Task, res: Option<nat>, t: Tree)
  {
    && KidsOk(w.acc, m.trees)
    && (forall f | f in w.frames :: Loaded(m, f))
    && (res.Some? ==> Entered(m, res.value))
    && Wrap(w.frames, m.trees, if res.None? then None else Some(m.trees[res.value])) == Update(t, w.k, w.e, w.loaded)
    && (w.loaded == 0 ==> w.e.None? && !Bare(t, 0, w.k))
  }

  ghost predicate TaskOk(m: Memory, w: Task, t: Tree)
  {
    match w.phase
    case At(id, at) =>
      Underway(m, w) && Entered(m, id) && ParentLoaded(m, w.acc, at) && OnTrack(m, w, id, at, t)
    case Reading(id, at, po, child) =>
      Underway(m, w) && Leaves(m, id, at, w.k, po, Some(child)) && Requested(m, child.id) &&
      ParentLoaded(m, w.acc, at) && OnTrack(m, w, id, at, t)
    case Ready(id, at, po, child) =>
      Underway(m, w) && Leaves(m, id, at, w.k, po, child) && (child.Some? ==> Loaded(m, child.value.id)) &&
      ParentLoaded(m, w.acc, at) && OnTrack(m, w, id, at, t)
    case Back(res) => ResultOk(m, w, res, t)
  }

  lemma {:induction false} WrapLater(frames: seq<nat>, m: Memory, m': Memory, r: Option<Tree>)
    requires Later(m, m') && MemOk(m) && forall f | f in frames :: Loaded(m, f)
    ensures Wrap(frames, m'.trees, r) == Wrap(frames, m.trees, r)
    decreases |frames|
  {
    hide AtZero, CellOk;
    if frames != [] {
      var n := |frames| - 1;
      assert Loaded(m, frames[n]);
      WrapLater(frames[..n], m, m', AtZero(m.trees[frames[n]], r));
    }
  }

  lemma UnderwayLater(m: Memory, m': Memory, w: Task)
    requires Underway(m, w) && Later(m, m')
    ensures Underway(m', w) && View(w.acc, m'.trees) == View(w.acc, m.trees)
    ensures forall at: nat :: ParentLoaded(m, w.acc, at) ==> ParentLoaded(m', w.acc, at)
  {
    hide View;
    ViewLater(w.acc, m, m');
  }

  lemma OnTrackLater(m: Memory, m': Memory, w: Task, id: nat, at: nat, t: Tree)
    requires MemOk(m) && Underway(m, w) && id in m.trees && OnTrack(m, w, id, at, t) && Later(m, m')
    ensures Underway(m', w) && id in m'.trees && OnTrack(m', w, id, at, t)
  {
    hide MemOk, View, Bare, UpdateInner, Update, Wrap, KidsOk;
    UnderwayLater(m, m', w);
    forall n: nat
      ensures Wrap(w.frames, m'.trees, UpdateInner(View(w.acc, m'.trees), m'.trees[id], at, w.k, w.e, n)) ==
              Update(t, w.k, w.e, n)
    {
      WrapLater(w.frames, m, m', UpdateInner(View(w.acc, m.trees), m.trees[id], at, w.k, w.e, n));
      assert Update(t, w.k, w.e, n) == Update(t, w.k, w.e, n);
    }
  }

  lemma ResultLater(m: Memory, m': Memory, w: Task, res: Option<nat>, t: Tree)
    requires MemOk(m) && ResultOk(m, w, res, t) && Later(m, m') && MemOk(m')
    ensures ResultOk(m', w, res, t)
  {
    hide MemOk, View, Bare, Update, Wrap;
    ViewLater(w.acc, m, m');
    if res.Some? {
      EnteredLater(m, m', res.value);
    }
    WrapLater(w.frames, m, m', if res.None? then None else Some(m.trees[res.value]));
  }

  /** Other steps do not disturb an update that is under way. */
  lemma TaskLater(m: Memory, m': Memory, w: Task, t: Tree)
    requires MemOk(m) && TaskOk(m, w, t) && Later(m, m') && MemOk(m')
    ensures TaskOk(m', w, t)
  {
    hide MemOk, View, OnTrack, Underway, ResultOk, ForkAt, FirstDiff, ParentLoaded, KidsOk;
    match w.phase
    case At(id, at) =>
      EnteredLater(m, m', id);
      UnderwayLater(m, m', w);
      UnderwayOk(m, w);
      OnTrackLater(m, m', w, id, at, t);
    case Reading(id, at, po, child) =>
      UnderwayLater(m, m', w);
      UnderwayOk(m, w);
      OnTrackLater(m, m', w, id, at, t);
    case Ready(id, at, po, next) =>
      UnderwayLater(m, m', w);
      UnderwayOk(m, w);
      OnTrackLater(m, m', w, id, at, t);
    case Back(res) => ResultLater(m, m', w, res, t);
  }

  lemma UnderwayOk(m: Memory, w: Task)
    requires Underway(m, w)
    ensures KidsOk(w.acc, m.trees) && w.loaded == 1
  {
  }

  // ---------------------------------------------------------------- every step keeps to it

  /** `t` and `w` are what a step makes of the memory and of its own task. */
  ghost predicate StepOk(m: Memory, r: (Memory, Task), t: Tree)
  {
    MemOk(r.0) && Later(m, r.0) && TaskOk(r.0, r.1, t)
  }

  lemma {:induction false} FinishOk(m: Memory, w: Task, c: Cell, made: Tree, t: Tree)
    requires MemOk(m) && KidsOk(w.acc, m.trees) && forall f | f in w.frames :: Loaded(m, f)
    requires CellOk(c, made, m.trees) && c.ref == None && (made.Node? ==> c.pinned.Some?)
    requires Wrap(w.frames, m.trees, Some(made)) == Update(t, w.k, w.e, w.loaded)
    requires w.loaded == 0 ==> w.e.None? && !Bare(t, 0, w.k)
    ensures StepOk(m, Finish(m, w, c), t)
  {
    hide View, Wrap, Update, Bare, KidsOk, Alloc;
    var m' := New(m, c);
    MeaningIs(c, made, m.trees);
    AllocOk(m, c, made);
    AllocKeeps(m, c, made);
    ViewLater(w.acc, m, m');
    WrapLater(w.frames, m, m', Some(made));
  }

  lemma MeaningIs(c: Cell, t: Tree, trees: map<nat, Tree>)
    requires CellOk(c, t, trees) && c.ref == None
    ensures Meaning(c, trees) == t
  {
  }

  lemma BackOk(m: Memory, w: Task, t: Tree)
    requires MemOk(m) && Underway(m, w) && Wrap(w.frames, m.trees, None) == Update(t, w.k, w.e, 1)
    ensures StepOk(m, (m, w.(phase := Back(None))), t)
  {
    hide Wrap, Update;
  }

  /** What the specification says about the node that the update has reached. */
  lemma Expect(m: Memory, w: Task, id: nat, at: nat, t: Tree, n: nat)
    requires KidsOk(w.acc, m.trees) && id in m.trees && OnTrack(m, w, id, at, t)
    ensures Wrap(w.frames, m.trees, UpdateInner(View(w.acc, m.trees), m.trees[id], at, w.k, w.e, n)) ==
            Update(t, w.k, w.e, n)
  {
    hide Wrap, Update, UpdateInner;
  }

  lemma PhaseOnly(m: Memory, w: Task, w': Task, id: nat, at: nat, t: Tree)
    requires w' == w.(phase := w'.phase) && Underway(m, w) && id in m.trees && OnTrack(m, w, id, at, t)
    ensures Underway(m, w') && OnTrack(m, w', id, at, t)
  {
    hide View, Update, UpdateInner, Wrap, Bare, KidsOk;
  }

  lemma {:induction false} LookOk(m: Memory, w: Task, t: Tree)
    requires MemOk(m) && w.phase.At? && TaskOk(m, w, t)
    ensures StepOk(m, Looked(m, w), t)
  {
    hide MemOk, TaskOk, StepOk, Looked;
    if Loaded(m, w.phase.id) {
      LookLoaded(m, w, t);
    } else {
      LookEmpty(m, w, t);
    }
  }

  lemma {:induction false} LookLoaded(m: Memory, w: Task, t: Tree)
    requires MemOk(m) && w.phase.At? && TaskOk(m, w, t) && Loaded(m, w.phase.id)
    ensures StepOk(m, Looked(m, w), t)
  {
    hide MemOk, View, OnTrack, Underway, KidsOk, ChildAt, ForkAt, FirstDiff, ParentLoaded;
    var id, at, c := w.phase.id, w.phase.at, m.cells[w.phase.id];
    UnderwayOk(m, w);
    LoadedIs(m, id);
    var po := FirstDiff(c.pinned.value.key, w.k, at);
    ChildAtView(c.forks, po, m.trees);
    var next := ChildAt(c.forks, po);
    if po < DEPTH && next.Some? {
      KidIsEither(m, c.forks, next.value);
    }
    LaterSame(m);
    PhaseOnly(m, w, Looked(m, w).1, id, at, t);
  }

  lemma {:induction false} LookEmpty(m: Memory, w: Task, t: Tree)
    requires MemOk(m) && w.phase.At? && TaskOk(m, w, t) && !Loaded(m, w.phase.id)
    ensures StepOk(m, Looked(m, w), t)
  {
    hide MemOk, View, OnTrack, Update, Wrap, KidsOk, Finish, StepOk;
    var id, at := w.phase.id, w.phase.at;
    UnderwayOk(m, w);
    Expect(m, w, id, at, t, 1);
    if w.e.None? {
      BackOk(m, w, t);
    } else {
      FinishOk(m, w, Cell(w.acc, w.e, None), Node(w.e.value, View(w.acc, m.trees)), t);
    }
  }

  lemma {:induction false} ReadOk(m: Memory, w: Task, t: Tree)
    requires MemOk(m) && w.phase.Reading? && TaskOk(m, w, t)
    ensures StepOk(m, Read(m, w), t)
  {
    hide MemOk, View, OnTrack, Arrive, Underway, ForkAt, FirstDiff, ParentLoaded;
    var r := Read(m, w);
    ArriveOk(m, w.phase.child.id);
    TaskLater(m, r.0, w, t);
    UnderwayOk(r.0, w);
    PhaseOnly(r.0, w, r.1, w.phase.id, w.phase.at, t);
  }

  // ---------------------------------------------------------------- after the look-up

  /** The focus holds the key. */
  lemma {:induction false} MatchOk(m: Memory, w: Task, t: Tree)
    requires MemOk(m) && w.phase.Ready? && TaskOk(m, w, t) && w.phase.po >= DEPTH
    ensures StepOk(m, Acted(m, w), t)
  {
    hide MemOk, View, OnTrack, Update, Wrap, KidsOk, ForkAt, FirstDiff, ParentLoaded, StepOk, Finish, Remove, Whacked,
      Whack, Pull;
    var id, at := w.phase.id, w.phase.at;
    UnderwayOk(m, w);
    LoadedIs(m, id);
    Expect(m, w, id, at, t, 1);
    if w.e.None? {
      RemoveOk(m, w, t);
    } else if w.e.value.value == m.cells[id].pinned.value.value {
      BackOk(m, w, t);
    } else {
      NoKids(m.trees);
      WhackedView(m, w.acc, id, at, [], Node(w.e.value, []), DEPTH);
      var acc := Whacked(w.acc, id, m.cells[id].forks, at, [], DEPTH);
      FinishOk(m, w, Cell(acc, w.e, None), Node(w.e.value, View(acc, m.trees)), t);
    }
  }

  /** Without a fork below the focus a removal does not depend on what is in memory. */
  lemma {:induction false} ReachIs(m: Memory, acc: seq<Fork>, id: nat, at: nat)
    requires MemOk(m) && Loaded(m, id)
    ensures id in m.trees && m.trees[id].Node?
    ensures Pull(acc, m.trees[id], at, Chain(m, id, at)) == Pull(acc, m.trees[id], at, Reach(m, id, at))
    ensures Reach(m, id, at) == 0 ==> LastFork(m.trees[id].forks, at).Some?
    ensures Reach(m, id, at) > 0 <==>
            LastChild(m.cells[id].forks, at).None? || Loaded(m, LastChild(m.cells[id].forks, at).value.id)
  {
    hide MemOk, View, KidsOk, LastChild, LastFork, PullTail, PullLeaf, Wedge;
    LoadedIs(m, id);
    if LastChild(m.cells[id].forks, at).None? {
      NoneIsNone(m, id, at);
    } else {
      LastIsBelow(m, id, at);
    }
  }

  lemma {:induction false} RemoveOk(m: Memory, w: Task, t: Tree)
    requires MemOk(m) && w.phase.Ready? && TaskOk(m, w, t) && w.phase.po >= DEPTH && w.e.None?
    ensures StepOk(m, Remove(m, w, w.phase.id, w.phase.at), t)
  {
    hide MemOk, View, Update, Wrap, KidsOk, FirstDiff, StepOk, Finish, Pull, Pulled, CellOk, Reach, LastFork;
    var id, at := w.phase.id, w.phase.at;
    var n := Reach(m, id, at);
    UnderwayOk(m, w);
    Expect(m, w, id, at, t, n);
    ReachIs(m, View(w.acc, m.trees), id, at);
    PulledIs(m, w.acc, id, at);
    FinishOk(m, w.(loaded := n), Pulled(m, w.acc, id, at), Pull(View(w.acc, m.trees), m.trees[id], at, n), t);
  }

  /** The focus has no fork where the key leaves it. */
  lemma {:induction false} EmptyForkOk(m: Memory, w: Task, t: Tree)
    requires MemOk(m) && w.phase.Ready? && TaskOk(m, w, t) && w.phase.po < DEPTH && w.phase.next.None?
    ensures StepOk(m, Acted(m, w), t)
  {
    hide MemOk, View, OnTrack, Update, Wrap, KidsOk, ForkAt, FirstDiff, ParentLoaded, StepOk, Finish, Whirled, Whirl;
    var id, at := w.phase.id, w.phase.at;
    UnderwayOk(m, w);
    LoadedIs(m, id);
    Expect(m, w, id, at, t, 1);
    if w.e.None? {
      BackOk(m, w, t);
    } else {
      WhirledView(m, w.acc, id, at, w.phase.po);
      var acc := Whirled(w.acc, id, m.cells[id].forks, at, w.phase.po);
      FinishOk(m, w, Cell(acc, w.e, None), Node(w.e.value, View(acc, m.trees)), t);
    }
  }

  lemma WrapPush(frames: seq<nat>, f: nat, trees: map<nat, Tree>, r: Option<Tree>)
    requires f in trees
    ensures Wrap(frames + [f], trees, r) == Wrap(frames, trees, AtZero(trees[f], r))
  {
    assert (frames + [f])[..|frames|] == frames;
  }

  /** updateInner at a node with a child towards the key. */
  lemma {:induction false} StepDown(acc: seq<Fork>, t: Tree, at: nat, k: Key, e: Option<Entry>, n: nat, c: Fork)
    requires t.Node? && FirstDiff(t.entry.key, k, at) < DEPTH && c.tree.Node?
    requires ForkAt(t.forks, FirstDiff(t.entry.key, k, at)) == Some(c)
    ensures var po := FirstDiff(t.entry.key, k, at);
            && (Bare(t, at, k) <==> Bare(c.tree, if po == 0 then 0 else po + 1, k))
            && UpdateInner(acc, t, at, k, e, n) ==
               if po == 0 then AtZero(t, UpdateInner(acc, c.tree, 0, k, e, n))
               else UpdateInner(Whirl(acc, t, at, po), c.tree, po + 1, k, e, n)
  {
    hide ForkAt, FirstDiff, Wedge, Whirl, Whack, Pull, LastFork;
  }

  lemma {:induction false} EntryOk(m: Memory, w: Task, id: nat, at: nat, t: Tree)
    requires MemOk(m) && Underway(m, w) && w.phase == At(id, at) && Entered(m, id) && ParentLoaded(m, w.acc, at)
    requires Bare(m.trees[id], at, w.k) <==> Bare(t, 0, w.k)
    requires forall n: nat ::
             Wrap(w.frames, m.trees, UpdateInner(View(w.acc, m.trees), m.trees[id], at, w.k, w.e, n)) ==
                              Update(t, w.k, w.e, n)
    ensures StepOk(m, (m, w), t)
  {
    hide MemOk, View, KidsOk, Entered, ParentLoaded;
    LaterSame(m);
  }

  /** The key lies below fork 0 of the focus: its node waits for the result. */
  lemma {:induction false} CrossOk(m: Memory, w: Task, t: Tree)
    requires MemOk(m) && w.phase.Ready? && TaskOk(m, w, t) && w.phase.po == 0 && w.phase.next.Some?
    ensures StepOk(m, Acted(m, w), t)
  {
    hide MemOk, View, Update, UpdateInner, Wrap, KidsOk, ForkAt, FirstDiff, Bare, StepOk;
    var id, at, c := w.phase.id, w.phase.at, w.phase.next.value;
    var w' := Acted(m, w).1;
    UnderwayOk(m, w);
    LoadedIs(m, id);
    LoadedIs(m, c.id);
    forall n: nat
      ensures Wrap(w'.frames, m.trees, UpdateInner(View(w.acc, m.trees), m.trees[c.id], 0, w.k, w.e, n)) ==
              Update(t, w.k, w.e, n)
    {
      Expect(m, w, id, at, t, n);
      StepDown(View(w.acc, m.trees), m.trees[id], at, w.k, w.e, n, Fork(0, m.trees[c.id], c.size));
      WrapPush(w.frames, id, m.trees, UpdateInner(View(w.acc, m.trees), m.trees[c.id], 0, w.k, w.e, n));
    }
    Expect(m, w, id, at, t, 1);
    StepDown(View(w.acc, m.trees), m.trees[id], at, w.k, w.e, 1, Fork(0, m.trees[c.id], c.size));
    EntryOk(m, w', c.id, 0, t);
  }

  lemma {:induction false} TruncatedBelow(cs: seq<Child>, po: int)
    ensures forall c | c in Truncated(cs, po) :: c.at < po
  {
    if cs != [] { TruncatedBelow(cs[1..], po); }
  }

  lemma {:induction false} CopiedBelow(cs: seq<Child>, from: int, to: int)
    ensures forall c | c in Copied(cs, from, to) :: c.at < to
  {
    if cs != [] { CopiedBelow(cs[1..], from, to); }
  }

  lemma WhirledParent(m: Memory, acc: seq<Child>, id: nat, at: nat, po: nat)
    requires Loaded(m, id) && at <= po
    ensures ParentLoaded(m, Whirled(acc, id, m.cells[id].forks, at, po), po + 1)
  {
    TruncatedBelow(acc, at);
    CopiedBelow(m.cells[id].forks, at, po);
  }

  /** The key lies below a later fork of the focus. */
  lemma {:induction false} DescendOk(m: Memory, w: Task, t: Tree)
    requires MemOk(m) && w.phase.Ready? && TaskOk(m, w, t) && 0 < w.phase.po < DEPTH && w.phase.next.Some?
    ensures StepOk(m, Acted(m, w), t)
  {
    hide MemOk, View, Update, UpdateInner, Wrap, KidsOk, ForkAt, FirstDiff, Bare, Whirled, Whirl, StepOk;
    var id, at, po, c := w.phase.id, w.phase.at, w.phase.po, w.phase.next.value;
    var w' := Acted(m, w).1;
    UnderwayOk(m, w);
    LoadedIs(m, id);
    LoadedIs(m, c.id);
    WhirledView(m, w.acc, id, at, po);
    WhirledParent(m, w.acc, id, at, po);
    forall n: nat
      ensures Wrap(w.frames, m.trees, UpdateInner(View(w'.acc, m.trees), m.trees[c.id], po + 1, w.k, w.e, n)) ==
              Update(t, w.k, w.e, n)
    {
      Expect(m, w, id, at, t, n);
      StepDown(View(w.acc, m.trees), m.trees[id], at, w.k, w.e, n, Fork(po, m.trees[c.id], c.size));
    }
    StepDown(View(w.acc, m.trees), m.trees[id], at, w.k, w.e, 1, Fork(po, m.trees[c.id], c.size));
    EntryOk(m, w', c.id, po + 1, t);
  }

  lemma {:induction false} ActOk(m: Memory, w: Task, t: Tree)
    requires MemOk(m) && w.phase.Ready? && TaskOk(m, w, t)
    ensures StepOk(m, Acted(m, w), t)
  {
    hide MemOk, View, OnTrack, Underway, ForkAt, FirstDiff, ParentLoaded, StepOk, Leaves, Finish, Remove;
    var po, next := w.phase.po, w.phase.next;
    if po >= DEPTH {
      MatchOk(m, w, t);
    } else if next.None? {
      EmptyForkOk(m, w, t);
    } else if po == 0 {
      CrossOk(m, w, t);
    } else {
      DescendOk(m, w, t);
    }
  }

  /** The subtree under fork 0 is done: the node that waited for it gets it, or loses the fork. */
  lemma {:induction false} JoinOk(m: Memory, w: Task, t: Tree)
    requires MemOk(m) && w.phase.Back? && w.frames != [] && TaskOk(m, w, t)
    ensures StepOk(m, Joined(m, w), t)
  {
    hide MemOk, View, Update, KidsOk, Bare, StepOk, Finish, Whacked, Whack, Wedged, Wedge;
    var n := |w.frames| - 1;
    var f, res := w.frames[n], w.phase.res;
    assert Loaded(m, f);
    LoadedIs(m, f);
    var r := if res.Some? then CellOf(m, res.value) else Cell([], None, None);
    var w' := w.(frames := w.frames[..n]);
    if r.pinned.None? {
      WedgedView(m, w.acc, f, 0, 0);
      WedgeForgets(View(w.acc, m.trees), m.trees[f]);
      var cs := Wedged(w.acc, m.cells[f].forks, 0, 0);
      FinishOk(m, w', Cell(cs, m.cells[f].pinned, None), Node(m.trees[f].entry, View(cs, m.trees)), t);
    } else {
      LoadedIs(m, res.value);
      NoKids(m.trees);
      WhackedView(m, [], res.value, -1, m.cells[f].forks, m.trees[f], 0);
      var cs := Whacked([], res.value, r.forks, -1, m.cells[f].forks, 0);
      FinishOk(m, w', Cell(cs, m.cells[f].pinned, None), Node(m.trees[f].entry, View(cs, m.trees)), t);
    }
  }

  lemma WedgeForgets(fs: seq<Fork>, t: Tree)
    requires t.Node?
    ensures Wedge(fs, t, 0, 0) == Wedge([], t, 0, 0)
  {
  }
}
