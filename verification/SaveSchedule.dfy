/** The upload schedule of saveTree as steps on values: start a ready node, finish one, lose one. */
module SaveSchedule {
  import opened SavePlan

  /** `busy` are uploading, `saved` have their address, `lost` failed to upload. */
  datatype Run<N> = Run(
    plan: Plan<N>,
    remaining: map<N, nat>,
    ready: seq<N>,
    head: nat,
    busy: set<N>,
    saved: set<N>,
    lost: set<N>
  )

  ghost function Elements<N>(s: seq<N>): set<N>
  {
    set x | x in s
  }

  /** Of every dirty node but the root the walk knows the parent. */
  ghost predicate Rooted<N>(p: Plan<N>, root: N)
  {
    PlanOk(p) && root in p.kids && p.parents.Keys == p.kids.Keys - {root} && Adopted(p, p.parents.Keys)
  }

  ghost predicate Queued<N>(r: Run<N>)
  {
    && r.head <= |r.ready|
    && (forall n | n in r.ready :: n in r.plan.kids)
    && (forall i, j :: 0 <= i < j < |r.ready| ==> r.ready[i] != r.ready[j])
  }

  /** What was started is uploading, saved or lost, and only one of these. */
  ghost predicate Accounted<N>(r: Run<N>)
    requires r.head <= |r.ready|
  {
    Elements(r.ready[..r.head]) == r.busy + r.saved + r.lost && r.busy !! r.saved && r.lost !! (r.busy + r.saved)
  }

  /** Every counter is the number of dirty children not yet saved. */
  ghost predicate Exact<N>(r: Run<N>)
  {
    r.remaining.Keys == r.plan.kids.Keys && forall n | n in r.plan.kids :: r.remaining[n] == |r.plan.kids[n] - r.saved|
  }

  /** A node is ready as soon as its dirty children are saved, and not before. */
  ghost predicate ReadyWhenDue<N>(r: Run<N>)
  {
    forall n | n in r.plan.kids :: n in r.ready <==> r.plan.kids[n] <= r.saved
  }

  ghost predicate RunOk<N>(r: Run<N>, root: N)
  {
    Rooted(r.plan, root) && Queued(r) && Accounted(r) && Exact(r) && ReadyWhenDue(r)
  }

  // ---------------------------------------------------------------- steps

  ghost function Begun<N>(p: Plan<N>): Run<N>
  {
    Run(p, p.remaining, p.ready, 0, {}, {}, {})
  }

  ghost function Started<N>(r: Run<N>): Run<N>
    requires r.head < |r.ready|
  {
    r.(head := r.head + 1, busy := r.busy + {r.ready[r.head]})
  }

  ghost function Finished<N>(r: Run<N>, n: N): Run<N>
    requires n in r.plan.parents ==> r.plan.parents[n] in r.remaining && r.remaining[r.plan.parents[n]] > 0
  {
    var s := r.(busy := r.busy - {n}, saved := r.saved + {n});
    if n !in r.plan.parents then s
    else
      var p := r.plan.parents[n];
      s.(remaining := s.remaining[p := s.remaining[p] - 1], ready := if s.remaining[p] == 1 then s.ready + [p]
        else s.ready)
  }

  ghost function Lost<N>(r: Run<N>, n: N): Run<N>
  {
    r.(busy := r.busy - {n}, lost := r.lost + {n})
  }

  lemma {:induction false} BegunExact<N>(p: Plan<N>)
    requires Counted(p)
    ensures Exact(Begun(p))
  {
    forall n | n in p.kids
      ensures p.remaining[n] == |p.kids[n] - {}|
    {
      assert p.kids[n] - {} == p.kids[n];
    }
  }

  lemma {:induction false} BegunReady<N>(p: Plan<N>)
    requires LeavesReady(p)
    ensures Queued(Begun(p)) && ReadyWhenDue(Begun(p))
  {
  }

  lemma {:induction false} BegunOk<N>(p: Plan<N>, root: N)
    requires Rooted(p, root)
    ensures RunOk(Begun(p), root)
  {
    hide Adopted, Linked, LeavesReady, Counted, Exact, ReadyWhenDue;
    BegunExact(p);
    BegunReady(p);
  }

  lemma {:induction false} StartedAccounted<N>(r: Run<N>)
    requires Queued(r) && Accounted(r) && r.head < |r.ready|
    ensures Accounted(Started(r))
    ensures var n := r.ready[r.head]; n !in r.busy && n !in r.saved && n !in r.lost && n !in r.ready[..r.head]
  {
    var n := r.ready[r.head];
    assert r.ready[..r.head + 1] == r.ready[..r.head] + [n];
    assert n !in r.ready[..r.head];
    assert n !in Elements(r.ready[..r.head]);
    assert Elements(r.ready[..r.head + 1]) == Elements(r.ready[..r.head]) + {n};
  }

  lemma {:induction false} StartedOk<N>(r: Run<N>, root: N)
    requires RunOk(r, root) && r.head < |r.ready|
    ensures RunOk(Started(r), root)
    ensures var n := r.ready[r.head];
            n !in r.busy && n !in r.saved && n !in r.lost && n in r.plan.kids &&
            r.plan.kids[n] <= r.saved
    ensures r.ready[r.head] !in r.ready[..r.head]
  {
    hide Rooted, Accounted;
    StartedAccounted(r);
  }

  lemma {:induction false} LostAccounted<N>(r: Run<N>, n: N)
    requires r.head <= |r.ready| && Accounted(r) && n in r.busy
    ensures Accounted(Lost(r, n))
  {
    assert r.busy - {n} + r.saved + (r.lost + {n}) == r.busy + r.saved + r.lost;
  }

  lemma {:induction false} LostOk<N>(r: Run<N>, n: N, root: N)
    requires RunOk(r, root) && n in r.busy
    ensures RunOk(Lost(r, n), root)
  {
    hide Rooted, Accounted;
    LostAccounted(r, n);
  }

  /** Only the parent waits for the node, and it does. */
  ghost predicate Awaited<N>(r: Run<N>, n: N)
  {
    && n in r.plan.kids && n !in r.saved && r.plan.kids[n] <= r.saved
    && (n in r.plan.parents ==> r.plan.parents[n] in r.plan.kids && n in r.plan.kids[r.plan.parents[n]])
    && forall m | m in r.plan.kids && n in r.plan.kids[m] :: n in r.plan.parents && r.plan.parents[n] == m
  }

  lemma {:induction false} BusyIsDue<N>(r: Run<N>, n: N)
    requires Queued(r) && Accounted(r) && ReadyWhenDue(r) && n in r.busy
    ensures n in r.plan.kids && n !in r.saved && r.plan.kids[n] <= r.saved
  {
    assert n in Elements(r.ready[..r.head]);
    assert n in r.ready;
  }

  lemma {:induction false} BusyIsAwaited<N>(r: Run<N>, n: N, root: N)
    requires RunOk(r, root) && n in r.busy
    ensures Awaited(r, n)
  {
    hide Exact, Accounted, Queued, ReadyWhenDue, LeavesReady;
    BusyIsDue(r, n);
  }

  lemma {:induction false} ParentCounts<N>(r: Run<N>, n: N)
    requires Awaited(r, n) && Exact(r) && ReadyWhenDue(r)
    ensures n in r.plan.parents ==>
            r.plan.parents[n] in r.remaining && r.remaining[r.plan.parents[n]] > 0 &&
            r.plan.parents[n] !in r.ready
  {
    if n in r.plan.parents {
      assert n in r.plan.kids[r.plan.parents[n]] - r.saved;
    }
  }

  lemma {:induction false} FewerLeft<N>(r: Run<N>, n: N, m: N)
    requires n !in r.saved && m in r.plan.kids
    ensures n in r.plan.kids[m] ==> |r.plan.kids[m] - (r.saved + {n})| == |r.plan.kids[m] - r.saved| - 1
    ensures n !in r.plan.kids[m] ==> |r.plan.kids[m] - (r.saved + {n})| == |r.plan.kids[m] - r.saved|
  {
    if n in r.plan.kids[m] {
      assert r.plan.kids[m] - (r.saved + {n}) == (r.plan.kids[m] - r.saved) - {n};
    } else {
      assert r.plan.kids[m] - (r.saved + {n}) == r.plan.kids[m] - r.saved;
    }
  }

  lemma {:induction false} FinishedSets<N>(r: Run<N>, n: N)
    requires n in r.plan.parents ==> r.plan.parents[n] in r.remaining && r.remaining[r.plan.parents[n]] > 0
    ensures var f := Finished(r, n);
            f == r.(remaining := f.remaining, ready := f.ready, busy := r.busy - {n}, saved := r.saved + {n})
  {
  }

  lemma {:induction false} FinishedExact<N>(r: Run<N>, n: N)
    requires Awaited(r, n) && Exact(r)
    requires n in r.plan.parents ==> r.plan.parents[n] in r.remaining && r.remaining[r.plan.parents[n]] > 0
    ensures Exact(Finished(r, n))
  {
    var f := Finished(r, n);
    forall m | m in r.plan.kids
      ensures f.remaining[m] == |r.plan.kids[m] - f.saved|
    {
      FewerLeft(r, n, m);
    }
  }

  lemma {:induction false} NoneLeft<N>(s: set<N>, t: set<N>)
    ensures s <= t <==> |s - t| == 0
  {
    if |s - t| == 0 {
      forall x | x in s ensures x in t {
        assert x !in s - t;
      }
    } else {
      var x :| x in s - t;
    }
  }

  lemma {:induction false} FinishedDue<N>(r: Run<N>, n: N)
    requires Awaited(r, n) && Exact(r) && ReadyWhenDue(r)
    requires n in r.plan.parents ==> r.plan.parents[n] in r.remaining && r.remaining[r.plan.parents[n]] > 0
    ensures ReadyWhenDue(Finished(r, n))
  {
    var f := Finished(r, n);
    forall m | m in r.plan.kids
      ensures m in f.ready <==> r.plan.kids[m] <= f.saved
    {
      FewerLeft(r, n, m);
      NoneLeft(r.plan.kids[m], f.saved);
    }
  }

  lemma {:induction false} FinishedAccounted<N>(r: Run<N>, n: N)
    requires Queued(r) && Accounted(r) && n in r.busy
    requires n in r.plan.parents ==> r.plan.parents[n] in r.plan.kids && r.plan.parents[n] !in r.ready
    requires n in r.plan.parents ==> r.plan.parents[n] in r.remaining && r.remaining[r.plan.parents[n]] > 0
    ensures Queued(Finished(r, n)) && Accounted(Finished(r, n))
  {
    var f := Finished(r, n);
    assert f.ready[..f.head] == r.ready[..r.head];
    assert r.busy - {n} + (r.saved + {n}) + r.lost == r.busy + r.saved + r.lost;
  }

  lemma {:induction false} FinishedOk<N>(r: Run<N>, n: N, root: N)
    requires RunOk(r, root) && n in r.busy
    ensures n in r.plan.kids && n !in r.saved && r.plan.kids[n] <= r.saved
    ensures n in r.plan.parents ==> r.plan.parents[n] in r.remaining && r.remaining[r.plan.parents[n]] > 0
    ensures RunOk(Finished(r, n), root)
  {
    hide Rooted, Exact, ReadyWhenDue, Accounted, Queued;
    BusyIsAwaited(r, n, root);
    ParentCounts(r, n);
    FinishedExact(r, n);
    FinishedDue(r, n);
    FinishedAccounted(r, n);
  }

  // ---------------------------------------------------------------- the end

  ghost predicate Over<N>(r: Run<N>)
  {
    r.busy == {} && r.lost == {} && r.head == |r.ready|
  }

  lemma {:induction false} ReadyIsSaved<N>(r: Run<N>, n: N)
    requires Queued(r) && Accounted(r) && Over(r)
    ensures n in r.ready <==> n in r.saved
  {
    assert r.ready[..r.head] == r.ready;
    assert n in Elements(r.ready) <==> n in r.ready;
  }

  lemma {:induction false} OverStarted<N>(r: Run<N>, root: N)
    requires RunOk(r, root) && Over(r)
    ensures r.saved == Elements(r.ready[..r.head])
  {
    hide Rooted, ReadyWhenDue, Exact;
  }

  lemma {:induction false} StartedOnce<N>(r: Run<N>, root: N)
    requires RunOk(r, root)
    ensures r.head <= |r.ready| && forall i, j :: 0 <= i < j < r.head ==> r.ready[i] != r.ready[j]
  {
    hide Rooted, ReadyWhenDue, Exact, Accounted;
  }

  lemma {:induction false} ExactOf<N>(r: Run<N>, root: N)
    requires RunOk(r, root)
    ensures Exact(r)
  {
    hide Rooted, Queued, Accounted, ReadyWhenDue;
  }

  /** When nothing is uploading, nothing waits in the queue and nothing was lost, everything is saved. */
  lemma {:induction false} AllSaved<N>(r: Run<N>, root: N)
    requires RunOk(r, root) && Over(r)
    ensures r.saved == r.plan.kids.Keys
  {
    hide Rooted, Accounted, Exact, ReadyWhenDue, Over;
    forall n | n in r.plan.kids
      ensures n in r.saved
    {
      SavedUpTo(r, root, n);
    }
    forall n | n in r.saved
      ensures n in r.plan.kids
    {
      ReadyIsSaved(r, n);
    }
  }

  lemma {:induction false} KidRank<N>(p: Plan<N>, root: N, n: N, c: N)
    requires Rooted(p, root) && n in p.kids && c in p.kids[n]
    ensures c in p.kids && c in p.rank && n in p.rank && p.rank[c] < p.rank[n]
  {
    hide LeavesReady, Adopted;
  }

  lemma {:induction false} SavedUpTo<N>(r: Run<N>, root: N, n: N)
    requires RunOk(r, root) && Over(r) && n in r.plan.kids
    ensures n in r.saved
    decreases if n in r.plan.rank then r.plan.rank[n] else 0
  {
    hide Rooted, Accounted, Exact, Queued, Over;
    forall c | c in r.plan.kids[n]
      ensures c in r.saved
    {
      KidRank(r.plan, root, n, c);
      SavedUpTo(r, root, c);
    }
    ReadyIsSaved(r, n);
  }

  lemma {:induction false} StartedIsDue<N>(r: Run<N>, root: N, n: N)
    requires RunOk(r, root) && n in r.ready
    ensures n in r.plan.kids && r.plan.kids[n] <= r.saved
  {
    hide Rooted, Accounted, Exact;
  }
}
