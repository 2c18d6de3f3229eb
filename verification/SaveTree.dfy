/**
 * saveTree: uploads the dirty nodes of a tree, children before parents, several at a time. Uploads
 * finish, or fail, in any order; each completion is one step.
 */
module SaveTree {
  import opened Wrappers
  import opened MantarayTree
  import opened SavePlan
  import opened SaveSchedule

  /** `kids` are the forks of the nodes that are dirty. */
  ghost predicate KidsAre(kids: map<MNode, set<MNode>>, d: set<MNode>, dirty: set<MNode>)
    reads d`forks
  {
    forall n | n in d :: n in kids && kids[n] == set c | c in n.forks && c in dirty
  }

  ghost predicate Marked(nodes: set<MNode>, dirty: set<MNode>)
    reads nodes`address
  {
    forall n | n in nodes :: n in dirty <==> n.address.None?
  }

  lemma {:induction false} KidsStay(p: Plan<MNode>, p0: Plan<MNode>, d: set<MNode>, dirty: set<MNode>)
    requires Extends(p, p0) && KidsAre(p0.kids, d, dirty)
    ensures KidsAre(p.kids, d, dirty)
  {
  }

  lemma {:induction false} KidsJoin(kids: map<MNode, set<MNode>>, d: set<MNode>, e: set<MNode>, dirty: set<MNode>)
    requires KidsAre(kids, d, dirty) && KidsAre(kids, e, dirty)
    ensures KidsAre(kids, d + e, dirty)
  {
  }

  /** Forks lead to nodes of the set. */
  ghost predicate Closed(nodes: set<MNode>)
    reads nodes`forks
  {
    forall n, c | n in nodes && c in n.forks :: c in nodes
  }

  lemma {:induction false} ClosedTree(t: Shape)
    requires Matches(t)
    ensures Closed(Nodes(t))
    decreases t, 1
  {
    ClosedTrees(t.kids);
    forall c | c in t.node.forks
      ensures c in Nodes(t)
    {
      var i :| 0 <= i < |t.node.forks| && t.node.forks[i] == c;
      KidIn(t.kids, i);
    }
  }

  lemma {:induction false} ClosedTrees(ts: seq<Shape>)
    requires AllMatch(ts)
    ensures Closed(AllNodes(ts))
    decreases ts, 0
  {
    if ts != [] {
      ClosedTree(ts[0]);
      ClosedTrees(ts[1..]);
    }
  }

  lemma {:induction false} NothingDirty(t: Shape, dirty: set<MNode>)
    requires Matches(t) && CleanBelow(Nodes(t)) && Marked(Nodes(t), dirty) && t.node.address.Some?
    ensures dirty * Nodes(t) == {}
  {
    hide Matches, CleanBelow, Nodes;
    CleanTree(t);
    assert forall n | n in Nodes(t) :: n !in Dirty(Nodes(t)) && n !in dirty;
  }

  lemma {:induction false} Nobody(dirty: set<MNode>, seen: set<MNode>, nodes: set<MNode>)
    requires dirty * nodes == {}
    ensures dirty * (seen + nodes) == dirty * seen
  {
    assert forall n | n in nodes :: n in dirty ==> n in dirty * nodes;
  }

  lemma {:induction false} CleanFork(n: MNode, i: nat, s: Shape, seen: set<MNode>, ks: set<MNode>, dirty: set<MNode>)
    requires i < |n.forks| && n.forks[i] == s.node && ks == (set c | c in n.forks[..i] && c in dirty)
    requires Matches(s) && CleanBelow(Nodes(s)) && Marked(Nodes(s), dirty) && s.node.address.Some?
    ensures dirty * (seen + Nodes(s)) == dirty * seen && ks == (set c | c in n.forks[..i + 1] && c in dirty)
  {
    hide Matches, CleanBelow, Marked;
    NothingDirty(s, dirty);
    Nobody(dirty, seen, Nodes(s));
    assert n.forks[..i + 1] == n.forks[..i] + [s.node];
    assert s.node in Nodes(s) && s.node !in dirty * Nodes(s);
  }

  lemma {:induction false} DirtyFork(n: MNode, i: nat, s: Shape, seen: set<MNode>, ks: set<MNode>, dirty: set<MNode>)
    requires i < |n.forks| && n.forks[i] == s.node && ks == (set c | c in n.forks[..i] && c in dirty)
    requires Marked(Nodes(s), dirty) && s.node.address.None? && Nodes(s) !! seen && ks <= seen
    ensures dirty * (seen + Nodes(s)) == dirty * seen + dirty * Nodes(s)
    ensures ks + {s.node} == (set c | c in n.forks[..i + 1] && c in dirty) && |ks + {s.node}| == |ks| + 1
  {
    assert n.forks[..i + 1] == n.forks[..i] + [s.node];
    assert s.node in Nodes(s);
  }

  lemma {:induction false} NoKids(kids: map<MNode, set<MNode>>, dirty: set<MNode>)
    ensures KidsAre(kids, {}, dirty)
  {
  }

  /** The walk has been through the forks before `i`, and seen these nodes. */
  ghost predicate Rest(t: Shape, i: nat, seen: set<MNode>, dirty: set<MNode>)
    reads Nodes(t)`forks, Nodes(t)`address
  {
    && Matches(t) && IsTree(t) && CleanBelow(Nodes(t)) && Marked(Nodes(t), dirty)
    && i <= |t.kids| && AreTrees(t.kids[i..])
    && seen + AllNodes(t.kids[i..]) == AllNodes(t.kids) && seen !! AllNodes(t.kids[i..]) && AllMatch(t.kids[i..])
  }

  lemma {:induction false} RestStart(t: Shape, dirty: set<MNode>)
    requires Matches(t) && IsTree(t) && CleanBelow(Nodes(t)) && Marked(Nodes(t), dirty)
    ensures Rest(t, 0, {}, dirty) && |t.node.forks| == |t.kids| && (t.node in dirty <==> t.node.address.None?)
  {
    assert t.kids[0..] == t.kids;
  }

  lemma {:induction false} SubtreeMarked(nodes: set<MNode>, more: set<MNode>, dirty: set<MNode>)
    requires nodes <= more && CleanBelow(more) && Marked(more, dirty)
    ensures CleanBelow(nodes) && Marked(nodes, dirty)
  {
  }

  lemma {:induction false} RestStep(t: Shape, i: nat, seen: set<MNode>, dirty: set<MNode>)
    requires Rest(t, i, seen, dirty) && i < |t.kids|
    ensures var s := t.kids[i]; Rest(t, i + 1, seen + Nodes(s), dirty) && Nodes(s) !! seen && Nodes(s) <= Nodes(t)
    ensures var s := t.kids[i]; Matches(s) && IsTree(s) && CleanBelow(Nodes(s)) && Marked(Nodes(s), dirty)
    ensures |t.node.forks| == |t.kids| && t.node.forks[i] == t.kids[i].node && t.node !in Nodes(t.kids[i])
  {
    var ts := t.kids;
    assert ts[i..][0] == ts[i] && ts[i..][1..] == ts[i + 1..];
    KidIn(ts, i);
    SubtreeMarked(Nodes(ts[i]), Nodes(t), dirty);
  }

  lemma {:induction false} RestEnd(t: Shape, seen: set<MNode>, dirty: set<MNode>)
    requires Rest(t, |t.kids|, seen, dirty)
    ensures seen == AllNodes(t.kids) && t.node !in seen && Nodes(t) == seen + {t.node}
  {
  }

  class Saver {
    const root: MNode
    const concurrency: nat
    var remaining: map<MNode, nat>
    var parents: map<MNode, MNode>
    var ready: seq<MNode>
    var readyHead: nat
    var dirtyCount: nat
    var inFlight: nat
    var uploaded: nat
    var failed: bool
    var resolved: bool

    ghost const shape: Shape
    ghost const nodes: set<MNode>
    ghost const dirty: set<MNode>            // when the call began
    ghost var kids: map<MNode, set<MNode>>
    ghost var rank: map<MNode, nat>
    ghost var plan: Plan<MNode>              // the walk's result
    ghost var busy: set<MNode>               // being uploaded
    ghost var saved: set<MNode>              // uploaded by this call
    ghost var lost: set<MNode>               // failed to upload
    ghost var log: seq<MNode>                // serialised, in this order

    /** The call: the walk, then the first uploads. */
    constructor (root: MNode, concurrency: nat, ghost shape: Shape)
      requires shape.node == root && Matches(shape) && IsTree(shape) && CleanBelow(Nodes(shape))
      ensures this.root == root && this.concurrency == concurrency && this.shape == shape
      ensures dirty == Dirty(Nodes(shape))
      ensures Valid() && saved == {} && !failed && (root.address.Some? ==> resolved)
    {
      hide KidsAre, CleanBelow, Inv, Matches, IsTree, RunOk, Closed, Valid, PlanOk, Dirty, Nodes;
      this.root, this.concurrency, this.shape := root, concurrency, shape;
      nodes, dirty := Nodes(shape), Dirty(Nodes(shape));
      remaining, parents, ready, readyHead, dirtyCount := map[], map[], [], 0, 0;
      inFlight, uploaded, failed, resolved := 0, 0, false, false;
      kids, rank := map[], map[];
      plan := Plan(map[], map[], [], 0, map[], map[]);
      busy, saved, lost, log := {}, {}, {}, [];
      ClosedTree(shape);
      new;
      Begin();
    }

    method Begin()
      requires Tree() && CleanBelow(nodes) && dirty == Dirty(nodes)
      requires Recorded() == Plan(map[], map[], [], 0, map[], map[])
      requires saved == busy == lost == {} && log == [] && readyHead == 0 == inFlight == uploaded && !failed
      requires !resolved
      modifies this
      ensures Valid() && saved == {} && !failed && (root.address.Some? ==> resolved)
    {
      hide PlanOk, Walked, KidsAre, CleanBelow, Inv, Matches, IsTree, RunOk, Closed;
      ghost var p0 := Recorded();
      EmptyPlan(p0);
      assert Marked(nodes, dirty) && dirty * nodes == dirty;
      Walk(root, shape);
      FirstUploads(p0);
    }

    /** The walk is done: a clean tree ends the call, otherwise the first uploads start. */
    method FirstUploads(ghost p0: Plan<MNode>)
      requires Tree() && CleanBelow(nodes) && dirty <= nodes && Marked(nodes, dirty)
      requires p0 == Plan(map[], map[], [], 0, map[], map[]) && PlanOk(Recorded())
      requires root.address.Some? ==> Recorded() == p0
      requires root.address.None? ==> Walked(Recorded(), root, dirty, p0) && KidsAre(kids, dirty, dirty)
      requires saved == busy == lost == {} && log == [] && readyHead == 0 == inFlight == uploaded && !failed
      requires !resolved
      modifies this
      ensures Valid() && saved == {} && !failed && (root.address.Some? ==> resolved)
    {
      hide PlanOk, Walked, KidsAre, CleanBelow, Inv, Matches, IsTree, RunOk, Closed;
      assert dirty * nodes == dirty;
      if dirtyCount == 0 {
        NothingPlanned(p0);
        resolved := true;
      } else {
        plan := Recorded();
        SomethingPlanned(p0);
        StartNext();
      }
    }

    lemma {:induction false} NothingPlanned(p0: Plan<MNode>)
      requires shape.node == root && Matches(shape) && CleanBelow(Nodes(shape)) && Marked(Nodes(shape), dirty)
      requires dirty <= Nodes(shape)
      requires p0 == Plan(map[], map[], [], 0, map[], map[]) && PlanOk(Recorded()) && dirtyCount == 0
      requires root.address.None? ==> Walked(Recorded(), root, dirty * Nodes(shape), p0)
      ensures root.address.Some? && dirty == {}
    {
      hide PlanOk, Walked, Matches, CleanBelow;
      assert dirty * Nodes(shape) == dirty;
      if root.address.None? {
        WalkedAll(Recorded(), root, dirty, p0);
      } else {
        NothingDirty(shape, dirty);
      }
    }

    lemma {:induction false} SomethingPlanned(p0: Plan<MNode>)
      requires Tree() && CleanBelow(nodes) && Addressed() && dirty <= nodes && plan == Recorded() && dirtyCount > 0
      requires p0 == Plan(map[], map[], [], 0, map[], map[]) && PlanOk(Recorded())
      requires root.address.Some? ==> Recorded() == p0
      requires root.address.None? ==> Walked(Recorded(), root, dirty, p0) && KidsAre(kids, dirty, dirty)
      requires saved == busy == lost == {} && log == [] && readyHead == 0 == inFlight == uploaded && !failed
      ensures root.address.None? && Inv()
    {
      hide PlanOk, Walked, Tree, CleanBelow, KidsAre, RunOk;
      WalkedAll(Recorded(), root, dirty, p0);
      BegunOk(plan, root);
      assert Progress() == Begun(plan);
    }

    // ---------------------------------------------------------------- the walk

    ghost function Recorded(): Plan<MNode>
      reads this
    {
      Plan(remaining, parents, ready, dirtyCount, kids, rank)
    }

    method Walk(n: MNode, ghost t: Shape)
      requires t.node == n && Matches(t) && IsTree(t) && CleanBelow(Nodes(t)) && Marked(Nodes(t), dirty)
      requires PlanOk(Recorded()) && dirty * Nodes(t) !! kids.Keys && (dirty * Nodes(t) - {n}) !! parents.Keys
      modifies this`remaining, this`parents, this`ready, this`dirtyCount, this`kids, this`rank
      ensures PlanOk(Recorded())
      ensures n.address.Some? ==> Recorded() == old(Recorded())
      ensures n.address.None? ==>
              Walked(Recorded(), n, dirty * Nodes(t), old(Recorded())) &&
              KidsAre(kids, dirty * Nodes(t), dirty)
      decreases t, 1
    {
      hide PlanOk, Walked, KidsAre, CleanBelow, Marked;
      if n.address.Some? {
        return;
      }
      WalkForks(n, t);
    }

    /** The walk of `n` has done the forks before `i`; `ks` are the dirty ones among them, `seen` what hangs there. */
    ghost predicate Position(n: MNode, t: Shape, nodes: set<MNode>, i: nat, seen: set<MNode>, ks: set<MNode>,
        p0: Plan<MNode>)
      reads n`forks, nodes`forks, nodes`address
    {
      && nodes == Nodes(t) && Rest(t, i, seen, dirty) && t.node == n && n !in seen && n in dirty &&
         |n.forks| == |t.kids|
      && i <= |n.forks| && ks == (set c | c in n.forks[..i] && c in dirty) && ks <= seen
      && dirty * Nodes(t) !! p0.kids.Keys && (dirty * Nodes(t) - {n}) !! p0.parents.Keys
    }

    ghost predicate Underway(n: MNode, seen: set<MNode>, ks: set<MNode>, p0: Plan<MNode>)
      reads this, dirty`forks
    {
      PlanOk(Recorded()) && Partly(Recorded(), n, dirty * seen, ks, p0) && KidsAre(kids, dirty * seen, dirty)
    }

    lemma {:induction false} PositionStart(n: MNode, t: Shape)
      requires t.node == n && Matches(t) && IsTree(t) && CleanBelow(Nodes(t)) && Marked(Nodes(t), dirty)
      requires n.address.None?
      requires dirty * Nodes(t) !! kids.Keys && (dirty * Nodes(t) - {n}) !! parents.Keys
      ensures Position(n, t, Nodes(t), 0, {}, {}, Recorded())
    {
      hide CleanBelow, Marked, Rest;
      RestStart(t, dirty);
    }

    lemma {:induction false} UnderwayStart(n: MNode)
      requires PlanOk(Recorded())
      ensures Underway(n, {}, {}, Recorded())
    {
      hide PlanOk, Partly, KidsAre;
      StartKids(Recorded(), n);
      NoKids(kids, dirty);
      assert dirty * {} == {};
    }

    lemma {:induction false} PastClean(n: MNode, t: Shape, nodes: set<MNode>, i: nat, seen: set<MNode>,
        ks: set<MNode>, p0: Plan<MNode>)
      requires Position(n, t, nodes, i, seen, ks, p0) && i < |n.forks| == |t.kids| && n.forks[i].address.Some?
      ensures Position(n, t, nodes, i + 1, seen + Nodes(t.kids[i]), ks, p0)
      ensures Underway(n, seen, ks, p0) ==> Underway(n, seen + Nodes(t.kids[i]), ks, p0)
    {
      hide PlanOk, Partly, KidsAre, CleanBelow, Marked, Rest;
      RestStep(t, i, seen, dirty);
      CleanFork(n, i, t.kids[i], seen, ks, dirty);
    }

    lemma {:induction false} PastDirty(n: MNode, t: Shape, nodes: set<MNode>, i: nat, seen: set<MNode>,
        ks: set<MNode>, p0: Plan<MNode>)
      requires Position(n, t, nodes, i, seen, ks, p0) && i < |n.forks| == |t.kids| && n.forks[i].address.None?
      ensures var s := t.kids[i];
              s.node == n.forks[i] && Matches(s) && IsTree(s) && CleanBelow(Nodes(s)) &&
              Marked(Nodes(s), dirty)
      ensures var e := dirty * Nodes(t.kids[i]); e !! dirty * seen && e !! p0.kids.Keys && e !! p0.parents.Keys
      ensures dirty * (seen + Nodes(t.kids[i])) == dirty * seen + dirty * Nodes(t.kids[i])
      ensures Position(n, t, nodes, i + 1, seen + Nodes(t.kids[i]), ks + {n.forks[i]}, p0)
      ensures |ks + {n.forks[i]}| == |ks| + 1
    {
      hide CleanBelow, Marked, Rest;
      RestStep(t, i, seen, dirty);
      DirtyFork(n, i, t.kids[i], seen, ks, dirty);
    }

    method WalkForks(n: MNode, ghost t: Shape)
      requires t.node == n && Matches(t) && IsTree(t) && CleanBelow(Nodes(t)) && Marked(Nodes(t), dirty)
      requires n.address.None?
      requires PlanOk(Recorded()) && dirty * Nodes(t) !! kids.Keys && (dirty * Nodes(t) - {n}) !! parents.Keys
      modifies this`remaining, this`parents, this`ready, this`dirtyCount, this`kids, this`rank
      ensures PlanOk(Recorded()) && Walked(Recorded(), n, dirty * Nodes(t), old(Recorded()))
      ensures KidsAre(kids, dirty * Nodes(t), dirty)
      decreases t, 0
    {
      hide PlanOk, Partly, Walked, KidsAre, CleanBelow, Marked, Rest, Underway, Position;
      ghost var p0 := Recorded();
      ghost var nodes := Nodes(t);
      PositionStart(n, t);
      UnderwayStart(n);
      var dirtyChildren := 0;
      ghost var ks: set<MNode> := {};
      ghost var seen: set<MNode> := {};
      var i := 0;
      while i < |n.forks|
        invariant i <= |n.forks| == |t.kids| && Position(n, t, nodes, i, seen, ks, p0)
        invariant Underway(n, seen, ks, p0) && dirtyChildren == |ks|
      {
        var child := n.forks[i];
        if child.address.Some? {
          PastClean(n, t, nodes, i, seen, ks, p0);
          assert Position(n, t, nodes, i + 1, seen + Nodes(t.kids[i]), ks, p0);
        } else {
          PastDirty(n, t, nodes, i, seen, ks, p0);
          dirtyChildren := dirtyChildren + 1;
          assert Position(n, t, nodes, i + 1, seen + Nodes(t.kids[i]), ks + {child}, p0);
          WalkFork(n, child, t.kids[i], seen, ks, p0);
          assert Position(n, t, nodes, i + 1, seen + Nodes(t.kids[i]), ks + {child}, p0);
          ks := ks + {child};
        }
        seen := seen + Nodes(t.kids[i]);
        i := i + 1;
      }
      Leave(n, t, nodes, seen, dirtyChildren, ks, p0);
    }

    /** One dirty child: it is given its parent, and walked. */
    method WalkFork(n: MNode, child: MNode, ghost s: Shape, ghost seen: set<MNode>, ghost ks: set<MNode>,
        ghost p0: Plan<MNode>)
      requires s.node == child && child.address.None? && Matches(s) && IsTree(s) && CleanBelow(Nodes(s))
      requires Marked(Nodes(s), dirty)
      requires Underway(n, seen, ks, p0) && dirty * (seen + Nodes(s)) == dirty * seen + dirty * Nodes(s)
      requires dirty * Nodes(s) !! dirty * seen && dirty * Nodes(s) !! p0.kids.Keys
      requires dirty * Nodes(s) !! p0.parents.Keys
      modifies this`remaining, this`parents, this`ready, this`dirtyCount, this`kids, this`rank
      ensures Underway(n, seen + Nodes(s), ks + {child}, p0)
      decreases s, 3
    {
      hide PlanOk, Partly, KidsAre, CleanBelow, Marked, Matches, IsTree;
      Adopt(n, child, s, dirty * seen, ks, p0);
    }

    method Adopt(n: MNode, child: MNode, ghost s: Shape, ghost d: set<MNode>, ghost ks: set<MNode>,
        ghost p0: Plan<MNode>)
      requires s.node == child && child.address.None? && Matches(s) && IsTree(s) && CleanBelow(Nodes(s))
      requires Marked(Nodes(s), dirty)
      requires PlanOk(Recorded()) && Partly(Recorded(), n, d, ks, p0) && KidsAre(kids, d, dirty)
      requires dirty * Nodes(s) !! d && dirty * Nodes(s) !! p0.kids.Keys && dirty * Nodes(s) !! p0.parents.Keys
      modifies this`remaining, this`parents, this`ready, this`dirtyCount, this`kids, this`rank
      ensures PlanOk(Recorded()) && Partly(Recorded(), n, d + dirty * Nodes(s), ks + {child}, p0)
      ensures KidsAre(kids, d + dirty * Nodes(s), dirty)
      decreases s, 2
    {
      hide PlanOk, Partly, Walked, KidsAre, Matches, IsTree, CleanBelow;
      ghost var p := Recorded();
      ghost var e := dirty * Nodes(s);
      assert child in e;
      Apart(p, n, d, e, ks, p0);
      ParentOk(p, child, n);
      parents := parents[child := n];
      assert Recorded() == WithParent(p, child, n);
      Walk(child, s);
      ChildWalked(p, Recorded(), n, child, d, e, ks, p0);
      WalkedExtends(Recorded(), p, child, n, e);
      KidsStay(Recorded(), p, d, dirty);
      KidsJoin(kids, d, e, dirty);
    }

    lemma {:induction false} Past(n: MNode, t: Shape, nodes: set<MNode>, seen: set<MNode>, ks: set<MNode>,
        p0: Plan<MNode>)
      requires Position(n, t, nodes, |n.forks|, seen, ks, p0)
      ensures dirty * Nodes(t) == dirty * seen + {n} && n !in seen && n !in p0.kids &&
              ks == set c | c in n.forks && c in dirty
    {
      hide Rest;
      RestEnd(t, seen, dirty);
      assert n.forks[..|n.forks|] == n.forks;
    }

    /** The node itself, after its children. */
    method Leave(n: MNode, ghost t: Shape, ghost nodes: set<MNode>, ghost seen: set<MNode>, dirtyChildren: nat,
        ghost ks: set<MNode>, ghost p0: Plan<MNode>)
      requires |n.forks| == |t.kids| && Position(n, t, nodes, |n.forks|, seen, ks, p0)
      requires Underway(n, seen, ks, p0) && dirtyChildren == |ks|
      modifies this`remaining, this`ready, this`dirtyCount, this`kids, this`rank
      ensures PlanOk(Recorded()) && Walked(Recorded(), n, dirty * Nodes(t), p0)
      ensures KidsAre(kids, dirty * Nodes(t), dirty)
    {
      hide PlanOk, Partly, Walked, KidsAre, Position;
      ghost var p := Recorded();
      ghost var d := dirty * seen;
      Past(n, t, nodes, seen, ks, p0);
      NodeWalked(p, n, d, ks, p0);
      remaining := remaining[n := dirtyChildren];
      dirtyCount := dirtyCount + 1;
      if dirtyChildren == 0 {
        ready := ready + [n];
      }
      kids := kids[n := ks];
      rank := rank[n := p.count];
      assert Recorded() == Add(p, n, ks);
      LeaveKids(p, n, d, ks, p0, dirty);
    }

    // ---------------------------------------------------------------- the uploads

    ghost function Progress(): Run<MNode>
      reads `plan, `remaining, `ready, `readyHead, `busy, `saved, `lost
    {
      Run(plan, remaining, ready, readyHead, busy, saved, lost)
    }

    /** The tree the call was given is still there. */
    ghost predicate Tree()
      reads nodes`forks
    {
      nodes == Nodes(shape) && shape.node == root && Matches(shape) && IsTree(shape) && Closed(nodes)
    }

    ghost predicate Addressed()
      reads `saved, nodes`address
    {
      forall n | n in nodes :: n.address.None? <==> n in dirty && n !in saved
    }

    /** The plan is for the dirty nodes of this tree. */
    ghost predicate Planned()
      reads `plan, `parents, dirty`forks
    {
      dirty <= nodes && root in dirty && plan.kids.Keys == dirty && plan.parents == parents &&
        KidsAre(plan.kids, dirty, dirty)
    }

    ghost predicate Tallied()
      reads `dirtyCount, `inFlight, `uploaded, `ready, `readyHead, `failed, `busy, `saved, `lost, `log
    {
      && dirtyCount == |dirty| && inFlight == |busy| <= concurrency && uploaded == |saved|
      && readyHead <= |ready| && log == ready[..readyHead] && (failed <==> lost != {})
    }

    /** What every step keeps. */
    ghost predicate Inv()
      reads `remaining, `parents, `ready, `readyHead, `dirtyCount, `inFlight, `uploaded, `failed
      reads `plan, `busy, `saved, `lost, `log, nodes`forks, nodes`address, dirty`forks
    {
      Tree() && CleanBelow(nodes) && Planned() && Addressed() && Tallied() && RunOk(Progress(), root)
    }

    /** What holds between steps; a call on a clean tree is over at once. */
    ghost predicate Valid()
      reads this, nodes`forks, nodes`address, dirty`forks
    {
      if dirty == {} then Tree() && CleanBelow(nodes) && Addressed() && resolved && saved == busy == {} && log == [] &&
        inFlight == 0
      else Inv() && (resolved ==> Over(Progress())) && Full()
    }

    /** Unless the call is over, as many uploads as the bound and the queue allow are under way, and at least one. */
    ghost predicate Full()
      reads `inFlight, `readyHead, `ready, `failed, `resolved
    {
      failed || resolved ||
        ((inFlight == concurrency || readyHead == |ready|) && (inFlight > 0 || concurrency == 0))
    }

    /** All children have an address, so the node can be serialised. */
    ghost predicate Serialisable(n: MNode)
      reads n`forks, n.forks`address
    {
      forall c | c in n.forks :: c.address.Some?
    }

    lemma {:induction false} DueSerialises(n: MNode)
      requires Tree() && Planned() && Addressed() && n in plan.kids && plan.kids[n] <= saved
      ensures Serialisable(n)
    {
    }

    /** The head of the queue goes out. */
    method Launch() returns (n: MNode)
      requires Inv() && inFlight < concurrency && readyHead < |ready|
      modifies this`readyHead, this`inFlight, this`busy, this`log
      ensures Inv() && log == old(log) + [n] && n !in old(log) && Serialisable(n) && n in busy
    {
      hide RunOk, CleanBelow, Planned, Tree, Addressed, Serialisable, Tallied;
      StartedOk(Progress(), root);
      NotLogged();
      n := ready[readyHead];
      DueSerialises(n);
      TakeHead(n);
    }

    lemma {:induction false} NotLogged()
      requires Tallied()
      ensures readyHead <= |ready| && log == ready[..readyHead]
    {
    }

    method TakeHead(n: MNode)
      requires Tallied() && inFlight < concurrency && readyHead < |ready| && n == ready[readyHead] && n !in busy
      modifies this`readyHead, this`inFlight, this`busy, this`log
      ensures Tallied() && log == old(log) + [n] && Progress() == Started(old(Progress()))
    {
      log := log + [n];
      busy := busy + {n};
      readyHead := readyHead + 1;
      inFlight := inFlight + 1;
    }

    method StartNext()
      requires Inv() && !resolved
      modifies this`readyHead, this`inFlight, this`resolved, this`busy, this`log
      ensures Inv() && (resolved ==> Over(Progress())) && Full() && (failed ==> log == old(log) && !resolved)
      ensures old(log) <= log && forall i | |old(log)| <= i < |log| :: Serialisable(log[i])
    {
      hide Inv, Serialisable;
      TallyOf();
      while !failed && inFlight < concurrency && readyHead < |ready|
        invariant Inv() && Tallied() && !resolved && (failed ==> log == old(log))
        invariant old(log) <= log && forall i | |old(log)| <= i < |log| :: Serialisable(log[i])
        decreases |ready| - readyHead
      {
        var n := Launch();
        TallyOf();
      }
      if !failed && inFlight == 0 && readyHead >= |ready| {
        resolved := true;
      }
    }

    lemma {:induction false} TallyOf()
      requires Inv()
      ensures Tallied()
    {
    }

    /** An upload came back: the node has its address, and its parent waits for one child less. */
    method Complete(n: MNode, ref: Address)
      requires Valid() && n in busy
      modifies this`remaining, this`ready, this`readyHead, this`inFlight, this`uploaded, this`resolved, n`address
      modifies this`busy, this`saved, this`log
      ensures Valid() && n.address == Some(ref) && saved == old(saved) + {n} && failed == old(failed)
      ensures old(failed) ==> log == old(log) && !resolved
      ensures old(log) <= log && forall i | |old(log)| <= i < |log| :: Serialisable(log[i])
    {
      hide Inv, Serialisable;
      Record(n, ref);
      StartNext();
    }

    method Record(n: MNode, ref: Address)
      requires Inv() && n in busy
      modifies this`remaining, this`ready, this`inFlight, this`uploaded, n`address, this`busy, this`saved
      ensures Inv() && n.address == Some(ref) && saved == old(saved) + {n}
    {
      hide RunOk, CleanBelow, Planned, Tree, Finished, Tallied, Serialisable;
      FinishedOk(Progress(), n, root);
      DueSerialises(n);
      PlanOf(n);
      ghost var r := Finished(Progress(), n);
      Stamp(n, ref);
      Settle(n);
      assert Progress() == r;
    }

    lemma {:induction false} PlanOf(n: MNode)
      requires Tree() && Planned()
      ensures parents == plan.parents && (n in plan.kids ==> n in nodes && n in dirty)
    {
    }

    method Settle(n: MNode)
      requires Tallied() && n in busy && n !in saved && parents == plan.parents
      requires n in parents ==> parents[n] in remaining && remaining[parents[n]] > 0
      modifies this`remaining, this`ready, this`inFlight, this`uploaded, this`busy, this`saved
      ensures Tallied() && Progress() == Finished(old(Progress()), n) && saved == old(saved) + {n}
    {
      hide Finished, Tallied;
      FinishedSets(Progress(), n);
      CountDown(n);
      Move(n);
    }

    /** The parent waits for one child less. */
    method CountDown(n: MNode)
      requires Tallied() && parents == plan.parents &&
               (n in parents ==> parents[n] in remaining && remaining[parents[n]] > 0)
      modifies this`remaining, this`ready
      ensures Tallied() && remaining == Finished(old(Progress()), n).remaining
      ensures ready == Finished(old(Progress()), n).ready
    {
      ghost var before := ready[..readyHead];
      if n in parents {
        var parent := parents[n];
        var rem := remaining[parent] - 1;
        remaining := remaining[parent := rem];
        if rem == 0 {
          ready := ready + [parent];
        }
      }
      assert ready[..readyHead] == before;
    }

    method Move(n: MNode)
      requires Tallied() && n in busy && n !in saved
      modifies this`inFlight, this`uploaded, this`busy, this`saved
      ensures Tallied() && busy == old(busy) - {n} && saved == old(saved) + {n}
    {
      Moved(busy, saved, n);
      uploaded, inFlight := uploaded + 1, inFlight - 1;
      busy, saved := busy - {n}, saved + {n};
    }

    method Stamp(n: MNode, ref: Address)
      requires n in nodes && Tree() && CleanBelow(nodes) && Serialisable(n)
      modifies n`address
      ensures Tree() && CleanBelow(nodes) && n.address == Some(ref)
    {
      hide Matches, IsTree;
      n.address := Some(ref);
    }

    /** An upload failed: the call is rejected, and nothing more goes out. */
    method Fail(n: MNode)
      requires Valid() && n in busy
      modifies this`inFlight, this`failed, this`busy, this`lost
      ensures Valid() && failed && log == old(log)
    {
      hide RunOk, CleanBelow, Planned, Tree, Addressed;
      LostOk(Progress(), n, root);
      inFlight := inFlight - 1;
      busy, lost := busy - {n}, lost + {n};
      if failed {
        return;
      }
      failed := true;
    }

    // ---------------------------------------------------------------- what the call guarantees

    /** The counters are exact: a dirty node waits for just as many forks as have no address yet. */
    lemma {:induction false} CountersExact(n: MNode)
      requires Valid() && n in dirty
      ensures n in remaining && remaining[n] == |set c | c in n.forks && c.address.None?|
    {
      hide RunOk, CleanBelow, Tallied;
      ExactOf(Progress(), root);
      UnsavedForks(n);
      assert n in plan.kids;
    }

    lemma {:induction false} UnsavedForks(n: MNode)
      requires Tree() && Planned() && Addressed() && n in dirty
      ensures n in plan.kids && plan.kids[n] - saved == set c | c in n.forks && c.address.None?
    {
      hide Matches, IsTree;
      assert n in nodes && plan.kids[n] == set c | c in n.forks && c in dirty;
      assert forall c | c in n.forks :: c in nodes && (c.address.None? <==> c in dirty && c !in saved);
    }

    /** Nothing is serialised twice, nothing before its children have addresses, nothing that was clean. */
    lemma {:induction false} SerialisedOnce()
      requires Valid()
      ensures forall i, j :: 0 <= i < j < |log| ==> log[i] != log[j]
      ensures forall n | n in log :: n in dirty && Serialisable(n)
      ensures inFlight <= concurrency
    {
      hide RunOk, Serialisable, CleanBelow, Tree, Planned, Addressed;
      if dirty != {} {
        StartedOnce(Progress(), root);
        forall n | n in log
          ensures n in dirty && Serialisable(n)
        {
          StartedIsDue(Progress(), root, n);
          DueSerialises(n);
          PlanOf(n);
        }
      }
    }

    /** The call resolves only when every node is clean, each dirty one having been serialised. */
    lemma {:induction false} ResolvesWhenClean()
      requires Valid() && resolved
      ensures (forall n | n in nodes :: n.address.Some?) && root.address.Some?
      ensures saved == dirty && Elements(log) == dirty
    {
      hide RunOk, CleanBelow, KidsAre, Matches, IsTree, Over;
      if dirty != {} {
        AllSaved(Progress(), root);
        OverStarted(Progress(), root);
      }
      assert root in nodes by {
        hide Planned, Addressed, Tallied;
      }
    }

    /**
     * Until the call is over a dirty node is uploading, so no step is ever missing: the bound is used up,
     * or every node whose children all have addresses has been sent out. With all of them saved it is over.
     */
    lemma {:induction false} KeepsMoving()
      requires Valid() && !failed && !resolved && concurrency > 0
      ensures busy != {} && busy <= dirty - saved
      ensures inFlight == concurrency || forall n | n in dirty && Serialisable(n) :: n in log
    {
      hide CleanBelow, Rooted, Exact, KidsAre, Serialisable;
      if inFlight != concurrency {
        forall n | n in dirty && Serialisable(n)
          ensures n in log
        {
          hide RunOk, Tallied;
          SerialisableIsDue(n);
          AllOut();
        }
      }
    }

    lemma {:induction false} SerialisableIsDue(n: MNode)
      requires Tree() && Planned() && Addressed() && n in dirty && Serialisable(n)
      ensures n in plan.kids && plan.kids[n] <= saved
    {
      hide Matches, IsTree;
      assert n in nodes && plan.kids[n] == set c | c in n.forks && c in dirty;
    }

    lemma {:induction false} AllOut()
      requires RunOk(Progress(), root) && Tallied() && readyHead == |ready|
      ensures forall n | n in plan.kids && plan.kids[n] <= saved :: n in log
    {
      assert ready[..readyHead] == ready;
    }

    /** At every step, after a failure too, the tree can be given to a new call. */
    lemma {:induction false} CanRetry()
      requires Valid()
      ensures shape.node == root && Matches(shape) && IsTree(shape) && CleanBelow(Nodes(shape))
    {
      hide RunOk, Planned, Addressed, CleanBelow;
    }

    method Result() returns (ref: Address)
      requires Valid() && resolved
      ensures root.address == Some(ref)
    {
      ResolvesWhenClean();
      ref := root.address.value;
    }
  }

  lemma {:induction false} LeaveKids(p: Plan<MNode>, n: MNode, d: set<MNode>, ks: set<MNode>, p0: Plan<MNode>,
      dirty: set<MNode>)
    requires Partly(p, n, d, ks, p0) && n !in p0.kids && n !in d && KidsAre(p.kids, d, dirty) &&
             ks == set c | c in n.forks && c in dirty
    ensures KidsAre(Add(p, n, ks).kids, d + {n}, dirty)
  {
  }

  lemma {:induction false} Apart(p: Plan<MNode>, n: MNode, d: set<MNode>, e: set<MNode>, ks: set<MNode>,
      p0: Plan<MNode>)
    requires Partly(p, n, d, ks, p0) && e !! d && e !! p0.kids.Keys && e !! p0.parents.Keys
    ensures e !! p.kids.Keys && e !! p.parents.Keys
  {
    hide Extends, Adopted, KidsOf;
  }

  lemma {:induction false} WalkedExtends(r: Plan<MNode>, p: Plan<MNode>, child: MNode, n: MNode, e: set<MNode>)
    requires Walked(r, child, e, WithParent(p, child, n)) && child !in p.parents
    ensures Extends(r, p)
  {
    hide Extends, Adopted, KidsOf, Adds;
    ChildExtends(r, p, child, n);
  }

  lemma {:induction false} EmptyPlan(p: Plan<MNode>)
    requires p == Plan(map[], map[], [], 0, map[], map[])
    ensures PlanOk(p)
  {
  }

  lemma {:induction false} WalkedAll(p: Plan<MNode>, root: MNode, dirty: set<MNode>, p0: Plan<MNode>)
    requires PlanOk(p) && Walked(p, root, dirty, p0) && p0 == Plan(map[], map[], [], 0, map[], map[])
    ensures Rooted(p, root) && p.kids.Keys == dirty && p.count == |dirty| > 0
  {
    hide Linked, LeavesReady, Adopted, Extends;
    assert p.kids.Keys == dirty && p.parents.Keys == dirty - {root};
    assert |p.kids| == |p.kids.Keys|;
  }

  lemma {:induction false} Moved(busy: set<MNode>, saved: set<MNode>, n: MNode)
    requires n in busy && n !in saved
    ensures |busy - {n}| == |busy| - 1 && |saved + {n}| == |saved| + 1
  {
  }
}
