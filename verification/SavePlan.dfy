/** What saveTree's walk records about the dirty nodes of a tree. */
module SavePlan {

  /**
   * `kids` are the children that were dirty when the walk came by, `remaining` how many they are; `rank` is the
   * order of the walk.
   */
  datatype Plan<N> = Plan(
    remaining: map<N, nat>,
    parents: map<N, N>,
    ready: seq<N>,
    count: nat,
    kids: map<N, set<N>>,
    rank: map<N, nat>
  )

  ghost predicate Counted<N>(p: Plan<N>)
  {
    && p.remaining.Keys == p.kids.Keys == p.rank.Keys && p.count == |p.kids|
    && forall n | n in p.kids :: p.kids[n] <= p.kids.Keys && p.remaining[n] == |p.kids[n]| && p.rank[n] < p.count
  }

  ghost predicate Linked<N>(p: Plan<N>)
    requires Counted(p)
  {
    forall n, c | n in p.kids && c in p.kids[n] :: c in p.parents && p.parents[c] == n && p.rank[c] < p.rank[n]
  }

  ghost predicate LeavesReady<N>(p: Plan<N>)
  {
    && (forall n | n in p.ready :: n in p.kids && p.kids[n] == {})
    && (forall n | n in p.kids && p.kids[n] == {} :: n in p.ready)
    && (forall i, j :: 0 <= i < j < |p.ready| ==> p.ready[i] != p.ready[j])
  }

  ghost predicate PlanOk<N>(p: Plan<N>)
  {
    Counted(p) && Linked(p) && LeavesReady(p)
  }

  /** What was recorded stays. */
  ghost predicate Extends<N>(p: Plan<N>, p0: Plan<N>)
  {
    && (forall m | m in p0.kids :: m in p.kids && p.kids[m] == p0.kids[m])
    && (forall m | m in p0.parents :: m in p.parents && p.parents[m] == p0.parents[m])
  }

  ghost predicate Adds<N>(p: Plan<N>, ks: set<N>, ps: set<N>, p0: Plan<N>)
  {
    p.kids.Keys == p0.kids.Keys + ks && p.parents.Keys == p0.parents.Keys + ps
  }

  /** Each of the nodes is a recorded child of its recorded parent. */
  ghost predicate Adopted<N>(p: Plan<N>, cs: set<N>)
  {
    forall c | c in cs :: c in p.parents && p.parents[c] in p.kids && c in p.kids[p.parents[c]]
  }

  ghost predicate KidsOf<N>(p: Plan<N>, cs: set<N>, n: N)
  {
    forall c | c in cs :: c in p.parents && p.parents[c] == n
  }

  /** The walk below `n` added exactly the dirty nodes `d`, each but `n` under its parent. */
  ghost predicate Walked<N>(p: Plan<N>, n: N, d: set<N>, p0: Plan<N>)
  {
    n in d && Adds(p, d, d - {n}, p0) && Extends(p, p0) && Adopted(p, d - {n})
  }

  /** So did the walk below some of its children; `ks` are the dirty ones among these. */
  ghost predicate Partly<N>(p: Plan<N>, n: N, d: set<N>, ks: set<N>, p0: Plan<N>)
  {
    ks <= d && Adds(p, d, d, p0) && Extends(p, p0) && Adopted(p, d - ks) && KidsOf(p, ks, n)
  }

  lemma {:induction false} StartKids<N>(p: Plan<N>, n: N)
    ensures Partly(p, n, {}, {}, p)
  {
  }

  ghost function WithParent<N>(p: Plan<N>, child: N, n: N): Plan<N>
  {
    p.(parents := p.parents[child := n])
  }

  lemma {:induction false} ParentOk<N>(p: Plan<N>, child: N, n: N)
    requires PlanOk(p) && child !in p.kids
    ensures PlanOk(WithParent(p, child, n))
  {
  }

  lemma {:induction false} ExtendsTrans<N>(r: Plan<N>, p: Plan<N>, p0: Plan<N>)
    requires Extends(r, p) && Extends(p, p0)
    ensures Extends(r, p0)
  {
  }

  lemma {:induction false} ChildExtends<N>(r: Plan<N>, p: Plan<N>, child: N, n: N)
    requires Extends(r, WithParent(p, child, n)) && child !in p.parents
    ensures Extends(r, p) && KidsOf(r, {child}, n)
  {
    var w := WithParent(p, child, n);
    assert child in w.parents && w.parents[child] == n;
    assert forall m | m in p.parents :: m in w.parents && w.parents[m] == p.parents[m];
  }

  lemma {:induction false} ChildAdds<N>(p: Plan<N>, r: Plan<N>, child: N, n: N, d: set<N>, e: set<N>, p0: Plan<N>)
    requires Adds(p, d, d, p0) && child in e && Adds(r, e, e - {child}, WithParent(p, child, n))
    ensures Adds(r, d + e, d + e, p0)
  {
    assert WithParent(p, child, n).parents.Keys == p.parents.Keys + {child};
  }

  lemma {:induction false} AdoptedMore<N>(p: Plan<N>, r: Plan<N>, cs: set<N>, more: set<N>)
    requires Extends(r, p) && Adopted(p, cs) && Adopted(r, more)
    ensures Adopted(r, cs + more)
  {
  }

  lemma {:induction false} KidsMore<N>(p: Plan<N>, r: Plan<N>, ks: set<N>, child: N, n: N)
    requires Extends(r, p) && KidsOf(p, ks, n) && KidsOf(r, {child}, n)
    ensures KidsOf(r, ks + {child}, n)
  {
  }

  lemma {:induction false} AdoptedFewer<N>(r: Plan<N>, cs: set<N>, fewer: set<N>)
    requires Adopted(r, cs) && fewer <= cs
    ensures Adopted(r, fewer)
  {
  }

  /** One dirty child more. */
  lemma {:induction false} ChildWalked<N>(p: Plan<N>, r: Plan<N>, n: N, child: N, d: set<N>, e: set<N>, ks: set<N>,
      p0: Plan<N>)
    requires Partly(p, n, d, ks, p0) && Walked(r, child, e, WithParent(p, child, n)) && child !in p.parents
    ensures Partly(r, n, d + e, ks + {child}, p0)
  {
    hide Extends, Adopted, Adds, KidsOf, WithParent;
    ChildExtends(r, p, child, n);
    ExtendsTrans(r, p, p0);
    ChildAdds(p, r, child, n, d, e, p0);
    AdoptedMore(p, r, d - ks, e - {child});
    AdoptedFewer(r, (d - ks) + (e - {child}), (d + e) - (ks + {child}));
    KidsMore(p, r, ks, child, n);
  }

  /** The node itself, after its children. */
  ghost function Add<N>(p: Plan<N>, n: N, ks: set<N>): Plan<N>
  {
    Plan(p.remaining[n := |ks|], p.parents, if ks == {} then p.ready + [n] else p.ready, p.count + 1, p.kids[n := ks],
         p.rank[n := p.count])
  }

  lemma {:induction false} AddCounted<N>(p: Plan<N>, n: N, ks: set<N>)
    requires Counted(p) && n !in p.kids && ks <= p.kids.Keys
    ensures Counted(Add(p, n, ks))
  {
    assert p.kids[n := ks].Keys == p.kids.Keys + {n};
    assert |p.kids[n := ks].Keys| == |p.kids.Keys| + 1;
  }

  lemma {:induction false} AddLinked<N>(p: Plan<N>, n: N, ks: set<N>)
    requires Counted(p) && Linked(p) && n !in p.kids && ks <= p.kids.Keys && KidsOf(p, ks, n) && Counted(Add(p, n, ks))
    ensures Linked(Add(p, n, ks))
  {
  }

  lemma {:induction false} AddReady<N>(p: Plan<N>, n: N, ks: set<N>)
    requires LeavesReady(p) && n !in p.kids
    ensures LeavesReady(Add(p, n, ks))
  {
  }

  lemma {:induction false} AddKeeps<N>(p: Plan<N>, n: N, d: set<N>, ks: set<N>, p0: Plan<N>)
    requires n !in p.kids && Extends(p, p0) && Adds(p, d, d, p0)
    ensures Extends(Add(p, n, ks), p0) && Adds(Add(p, n, ks), d + {n}, d, p0)
  {
  }

  lemma {:induction false} AddAdopted<N>(p: Plan<N>, n: N, d: set<N>, ks: set<N>)
    requires n !in p.kids && Adopted(p, d - ks) && KidsOf(p, ks, n)
    ensures Adopted(Add(p, n, ks), d)
  {
  }

  lemma {:induction false} NotYet<N>(p: Plan<N>, n: N, d: set<N>, ks: set<N>, p0: Plan<N>)
    requires Adds(p, d, d, p0) && ks <= d && n !in p0.kids && n !in d
    ensures n !in p.kids && ks <= p.kids.Keys
  {
  }

  lemma {:induction false} AddOk<N>(p: Plan<N>, n: N, ks: set<N>)
    requires PlanOk(p) && n !in p.kids && ks <= p.kids.Keys && KidsOf(p, ks, n)
    ensures PlanOk(Add(p, n, ks))
  {
    hide Counted, Linked, LeavesReady, KidsOf, Add;
    AddCounted(p, n, ks);
    AddLinked(p, n, ks);
    AddReady(p, n, ks);
  }

  lemma {:induction false} NodeWalked<N>(p: Plan<N>, n: N, d: set<N>, ks: set<N>, p0: Plan<N>)
    requires PlanOk(p) && Partly(p, n, d, ks, p0) && n !in p0.kids && n !in d
    ensures PlanOk(Add(p, n, ks)) && Walked(Add(p, n, ks), n, d + {n}, p0)
  {
    hide PlanOk, Extends, Adds, Adopted, KidsOf, Add;
    NotYet(p, n, d, ks, p0);
    AddOk(p, n, ks);
    AddKeeps(p, n, d, ks, p0);
    AddAdopted(p, n, d, ks);
    assert d + {n} - {n} == d;
  }
}
