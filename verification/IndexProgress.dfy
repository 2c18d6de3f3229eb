/**
 * Nothing hangs: whoever is inside the mutex can always go on and gets out after a bounded number of
 * its own steps, every call of update that was made can be carried out, and every find and every
 * iteration ends unless a read of its own is refused.
 */
module IndexProgress {
  import opened Bits
  import opened Wrappers
  import opened Trie
  import opened TrieMap
  import opened TrieIter
  import opened PotArena
  import opened PotReads
  import opened PotTasks
  import opened PotProgress
  import opened IndexRuns

  // ---------------------------------------------------------------- writers

  /** A step of writer `i` inside the mutex, other than a failure. */
  predicate Own(step: Step, i: nat)
  {
    step == Work(i) || step == Arrival(i) || step == Leave(i) || (step.Save? && step.i == i)
  }

  /** What writer `i` inside the mutex still has to do. */
  ghost function StepsLeft(s: State, i: nat): nat
    requires Busy(s, i)
  {
    TaskLeft(s.m, s.writers[i].stage.task)
  }

  /** The writer inside can always take a step of its own. */
  lemma {:induction false} OwnStepEnabled(init: Tree, s: State, i: nat) returns (step: Step, s': State)
    requires Inv(init, s) && Busy(s, i)
    ensures Own(step, i) && Next(s, step, s')
    ensures step == Leave(i) ==> i < |s'.writers| && s'.writers[i].stage.Left? && s'.writers[i].stage.applied
  {
    hide MemOk, ChainOk, LossesOk, ReadersOk, TaskOk, Looked, Acted, Joined, Read, Sequential, Stamp;
    var w := s.writers[i].stage.task;
    assert TaskOf(s, s.writers[i].op, w);
    match w.phase
    case At(_, _) => step, s' := Work(i), Worked(s, i, Looked(s.m, w));
    case Ready(_, _, _, _) => step, s' := Work(i), Worked(s, i, Acted(s.m, w));
    case Reading(_, _, _, _) => step, s' := Arrival(i), Worked(s, i, Read(s.m, w));
    case Back(res) =>
      if w.frames != [] {
        step, s' := Work(i), Worked(s, i, Joined(s.m, w));
      } else if res.Some? && CellOf(s.m, res.value).ref.None? && CellOf(s.m, res.value).pinned.Some? {
        var id := SomeSavable(s.m, res.value);
        step, s' := Save(i, id), s.(m := Stamp(s.m, id));
      } else {
        step := Leave(i);
        s' := Released(s, i, if res.Some? then res.value else s.root, Left(true, w.loaded));
      }
  }

  /** A step of its own brings the writer nearer to its end, and no step of another takes it further away. */
  lemma {:induction false} StepLowers(init: Tree, s: State, step: Step, s': State, i: nat)
    requires Inv(init, s) && Next(s, step, s') && Busy(s, i)
    ensures i < |s'.writers| && (Busy(s', i) || s'.writers[i].stage.Left?)
    ensures Busy(s', i) ==> StepsLeft(s', i) <= StepsLeft(s, i) && (Own(step, i) ==> StepsLeft(s', i) < StepsLeft(s, i))
    ensures step == Leave(i) || step == Fail(i) <==> !Busy(s', i)
  {
    hide MemOk, LossesOk, ReadersOk, TaskOk, Looked, Acted, Joined, Read, Sequential, Stamp, TaskLeft, JobOk;
    var w, t := s.writers[i].stage.task, s.m.trees[s.root];
    assert TaskOf(s, s.writers[i].op, w);
    AloneInside(s, step, s', i);
    if Busy(s', i) {
      if step == Work(i) {
        WorkLowers(s.m, w, t);
      } else if step == Arrival(i) {
        ReadAhead(s.m, w, t);
      } else if step.Save? {
        StampAhead(s.m, w, step.id);
      } else {
        OthersKeep(s, step, s');
        StepKeepsInv(init, s, step, s');
        TaskLeftKept(s.m, s'.m, w, t);
      }
    }
  }

  lemma WorkLowers(m: Memory, w: Task, t: Tree)
    requires MemOk(m) && TaskOk(m, w, t)
    ensures w.phase.At? ==> var r := Looked(m, w); TaskLeft(r.0, r.1) < TaskLeft(m, w)
    ensures w.phase.Ready? ==> var r := Acted(m, w); TaskLeft(r.0, r.1) < TaskLeft(m, w)
    ensures w.phase.Back? && w.frames != [] ==> var r := Joined(m, w); TaskLeft(r.0, r.1) < TaskLeft(m, w)
  {
    hide MemOk, TaskOk, TaskLeft, Looked, Acted, Joined;
    match w.phase
    case At(_, _) => LookAhead(m, w);
    case Ready(_, _, _, _) => ActAhead(m, w, t);
    case Back(_) => if w.frames != [] { JoinAhead(m, w); }
    case Reading(_, _, _, _) =>
  }

  /** While a writer is inside, the others take no step but their call. */
  lemma {:induction false} AloneInside(s: State, step: Step, s': State, i: nat)
    requires ChainOk(s) && Next(s, step, s') && Busy(s, i)
    ensures step.Work? || step.Arrival? || step.Save? || step.Leave? || step.Fail? ==> step.i == i
    ensures !step.Enter?
    ensures i < |s'.writers|
    ensures step.Leave? || step.Fail? ==> s'.writers[i].stage.Left?
    ensures step.Work? || step.Arrival? ==> s'.writers[i].stage.Inside?
    ensures !(step.Work? || step.Arrival? || step.Leave? || step.Fail?) ==> s'.writers[i] == s.writers[i]
  {
    hide MemOk, Looked, Acted, Joined, Read, Stamp, Continue, Received, Refused, Begin, AllSaved, Loaded;
  }

  /** Steps of others leave nothing to save. */
  lemma {:induction false} OthersKeep(s: State, step: Step, s': State)
    requires MemOk(s.m) && Next(s, step, s')
    requires step.Call? || step.Enter? || step.StartFind? || step.StartIterate? || step.Go? || step.Receive? ||
             step.Refuse? || step.Close?
    ensures Unsaved(s'.m) == Unsaved(s.m)
  {
    hide MemOk, Unsaved, Filled, Continue, Refused, Begin, LeftCount;
    if step.Receive? {
      UnsavedReceived(s.m, s.readers[step.i].job);
    }
  }

  lemma UnsavedReceived(m: Memory, j: Job)
    requires MemOk(m) && Awaiting(j)
    ensures Unsaved(Received(m, j).0) == Unsaved(m)
  {
    hide MemOk, Unsaved, Filled;
    match j
    case Finding(_, p) => UnsavedFilled(m, p.id);
    case Iterating(w) => UnsavedFilled(m, AwaitedBy(w.phase));
  }

  /** How many of the steps from `a` to `n` are writer `i`'s own. */
  ghost function OwnSteps(steps: seq<Step>, a: nat, n: nat, i: nat): nat
    requires a <= n <= |steps|
  {
    if n == a then 0 else OwnSteps(steps, a, n - 1, i) + if Own(steps[n - 1], i) then 1 else 0
  }

  /**
   * Whatever the others do, a writer that is inside at state `a` has left before it has taken more
   * steps of its own than were left for it then, by a `Leave` or a failure.
   */
  lemma {:induction false} WriterGetsOut(m: Memory, root: nat, steps: seq<Step>, states: seq<State>, a: nat, n: nat,
      i: nat)
    requires Run(m, root, steps, states) && a <= n <= |steps| && Busy(states[a], i)
    ensures i < |states[n].writers| && (Busy(states[n], i) || states[n].writers[i].stage.Left?)
    ensures Busy(states[n], i) ==> OwnSteps(steps, a, n, i) + StepsLeft(states[n], i) <= StepsLeft(states[a], i)
    ensures !Busy(states[n], i) <==> exists j :: a <= j < n && (steps[j] == Leave(i) || steps[j] == Fail(i))
    decreases n
  {
    hide MemOk, Inv, Next, StepsLeft, Own;
    if n > a {
      WriterGetsOut(m, root, steps, states, a, n - 1, i);
      RunKeepsInv(m, root, steps, states, n - 1);
      assert Next(states[n - 1], steps[n - 1], states[n - 1 + 1]);
      if Busy(states[n - 1], i) {
        StepLowers(m.trees[root], states[n - 1], steps[n - 1], states[n], i);
      } else {
        LeftForGood(m.trees[root], states[n - 1], steps[n - 1], states[n], i);
      }
    }
  }

  /** A writer that has left stays as it is. */
  lemma {:induction false} LeftForGood(init: Tree, s: State, step: Step, s': State, i: nat)
    requires Inv(init, s) && Next(s, step, s') && i < |s.writers| && s.writers[i].stage.Left?
    ensures i < |s'.writers| && s'.writers[i] == s.writers[i]
  {
    hide RootIs, LossesOk, ReadersOk, MemOk, Later, Next;
    StepKeepsInv(init, s, step, s');
    var k := LeftCount(s.writers);
    assert s.writers[..k][i] == s'.writers[..k][i];
  }

  /**
   * When a read or a write of the writer inside fails, it leaves with nothing changed, and the next
   * one can enter all the same.
   */
  lemma {:induction false} FailureReleases(init: Tree, s: State, i: nat) returns (s': State)
    requires Inv(init, s) && Busy(s, i)
    requires var w := s.writers[i].stage.task; w.phase.Reading? || Returned(w)
    ensures Next(s, Fail(i), s') && Inv(init, s')
    ensures s'.root == s.root && s'.m == s.m && s'.writers[i].stage.Left? && !s'.writers[i].stage.applied
    ensures i + 1 < |s'.writers| ==> s'.writers[i + 1].stage.Waiting? && s'.writers[i + 1].previous in s'.resolved
  {
    hide RootIs, LossesOk, ReadersOk;
    s' := Released(s, i, s.root, Left(false, s.writers[i].stage.task.loaded));
    StepKeepsInv(init, s, Fail(i), s');
  }

  // ---------------------------------------------------------------- runs that go on

  /** `states` are the states after each of `steps`, from `s` on. */
  ghost predicate Path(s: State, steps: seq<Step>, states: seq<State>)
    decreases |steps|
  {
    |states| == |steps| &&
      (steps != [] ==> Next(s, steps[0], states[0]) && Path(states[0], steps[1..], states[1..]))
  }

  function End(s: State, states: seq<State>): State
  {
    if states == [] then s else states[|states| - 1]
  }

  /** A run goes on along a path from its last state. */
  lemma {:induction false} RunGoesOn(m: Memory, root: nat, steps: seq<Step>, states: seq<State>, more: seq<Step>,
      after: seq<State>)
    requires Run(m, root, steps, states) && Path(states[|steps|], more, after)
    ensures Run(m, root, steps + more, states + after)
    ensures (states + after)[|steps + more|] == End(states[|steps|], after)
    decreases |more|
  {
    hide Next, MemOk, Entered, Initial;
    if more == [] {
      assert steps + more == steps && states + after == states;
    } else {
      OneMore(m, root, steps, states, more[0], after[0]);
      RunGoesOn(m, root, steps + [more[0]], states + [after[0]], more[1..], after[1..]);
      assert steps + [more[0]] + more[1..] == steps + more;
      assert states + [after[0]] + after[1..] == states + after;
    }
  }

  lemma {:induction false} OneMore(m: Memory, root: nat, steps: seq<Step>, states: seq<State>, step: Step, s': State)
    requires Run(m, root, steps, states) && Next(states[|steps|], step, s')
    ensures Run(m, root, steps + [step], states + [s'])
  {
    hide Next, MemOk, Entered, Initial;
    var more, after := steps + [step], states + [s'];
    forall i | 0 <= i < |more|
      ensures Next(after[i], more[i], after[i + 1])
    {
      if i < |steps| {
        assert Next(states[i], steps[i], states[i + 1]);
      }
    }
  }

  lemma PathFirst(s: State, steps: seq<Step>, states: seq<State>)
    requires Path(s, steps, states) && steps != []
    ensures states != [] && Next(s, steps[0], states[0]) && Path(states[0], steps[1..], states[1..])
    ensures End(s, states) == End(states[0], states[1..])
  {
    hide Next;
  }

  lemma PathCons(s: State, step: Step, s': State, steps: seq<Step>, states: seq<State>)
    requires Next(s, step, s') && Path(s', steps, states)
    ensures Path(s, [step] + steps, [s'] + states) && End(s, [s'] + states) == End(s', states)
  {
    hide Next;
    assert ([step] + steps)[1..] == steps && ([s'] + states)[1..] == states;
  }

  lemma {:induction false} PathJoin(s: State, a: seq<Step>, sa: seq<State>, b: seq<Step>, sb: seq<State>)
    requires Path(s, a, sa) && Path(End(s, sa), b, sb)
    ensures Path(s, a + b, sa + sb) && End(s, sa + sb) == End(End(s, sa), sb)
    decreases |a|
  {
    hide Next, Path, End;
    if a == [] {
      PathEmpty(s, sa);
      assert a + b == b && sa + sb == sb;
    } else {
      PathFirst(s, a, sa);
      PathJoin(sa[0], a[1..], sa[1..], b, sb);
      PathCons(s, a[0], sa[0], a[1..] + b, sa[1..] + sb);
      assert [a[0]] + (a[1..] + b) == a + b && [sa[0]] + (sa[1..] + sb) == sa + sb;
    }
  }

  lemma PathEmpty(s: State, states: seq<State>)
    requires Path(s, [], states)
    ensures states == [] && End(s, states) == s
  {
  }

  lemma PathOne(s: State, step: Step, s': State)
    requires Next(s, step, s')
    ensures Path(s, [step], [s']) && End(s, [s']) == s'
  {
    hide Next;
    assert [step][1..] == [] && [s'][1..] == [];
  }

  /** Only writer `i` has changed, and its call has not. */
  ghost predicate Kept(s: State, s': State, i: nat)
  {
    && |s'.writers| == |s.writers| && s'.closed == s.closed && s'.readers == s.readers
    && forall j :: 0 <= j < |s.writers| ==>
         s'.writers[j].op == s.writers[j].op && (j != i ==> s'.writers[j] == s.writers[j])
  }

  lemma KeptOn(a: State, b: State, c: State, i: nat)
    requires Kept(a, b, i) && Kept(b, c, i)
    ensures Kept(a, c, i)
  {
  }

  lemma OwnKeeps(s: State, step: Step, s': State, i: nat)
    requires Next(s, step, s') && Own(step, i) && Busy(s, i)
    ensures Kept(s, s', i)
  {
    hide MemOk, Looked, Acted, Joined, Read, Stamp, AllSaved, Loaded;
  }

  ghost predicate LeftApplied(s: State, i: nat)
  {
    i < |s.writers| && s.writers[i].stage.Left? && s.writers[i].stage.applied
  }

  /** The writer that is inside can get out by steps of its own, with its update applied. */
  lemma {:induction false} CanLeave(init: Tree, s: State, i: nat) returns (more: seq<Step>, after: seq<State>)
    requires Inv(init, s) && Busy(s, i)
    ensures Path(s, more, after) && forall x | x in more :: Own(x, i)
    ensures Inv(init, End(s, after)) && Kept(s, End(s, after), i) && LeftApplied(End(s, after), i)
    decreases StepsLeft(s, i)
  {
    hide MemOk, Inv, Next, StepsLeft, Kept, Path;
    var step, s' := OwnStepEnabled(init, s, i);
    StepLowers(init, s, step, s', i);
    StepKeepsInv(init, s, step, s');
    OwnKeeps(s, step, s', i);
    PathOne(s, step, s');
    more, after := [step], [s'];
    if Busy(s', i) {
      var rest, final := CanLeave(init, s', i);
      PathJoin(s, [step], [s'], rest, final);
      KeptOn(s, s', End(s', final), i);
      more, after := [step] + rest, [s'] + final;
    }
  }

  /** Writers leave in the order of their calls, and the next one can enter. */
  lemma LeftFirst(init: Tree, s: State)
    requires Inv(init, s)
    ensures var n := LeftCount(s.writers);
            && n <= |s.writers| && (forall i :: 0 <= i < |s.writers| ==> (s.writers[i].stage.Left? <==> i < n))
            && (n < |s.writers| && s.writers[n].stage.Waiting? ==> s.writers[n].previous in s.resolved)
  {
    hide RootIs, LossesOk, ReadersOk;
  }

  /** The first writer that has not left can enter, if it has not yet, and leave. */
  lemma {:induction false} OneOut(init: Tree, s: State) returns (more: seq<Step>, after: seq<State>)
    requires Inv(init, s) && LeftCount(s.writers) < |s.writers|
    ensures Path(s, more, after) && Inv(init, End(s, after))
    ensures Kept(s, End(s, after), LeftCount(s.writers)) && LeftApplied(End(s, after), LeftCount(s.writers))
  {
    hide MemOk, Inv, LeftCount, Begin, Kept, LeftApplied, Path;
    var i := LeftCount(s.writers);
    LeftFirst(init, s);
    if s.writers[i].stage.Inside? {
      more, after := CanLeave(init, s, i);
    } else {
      var op := s.writers[i].op;
      var s' := ToStage(s, i, Inside(Begin(op.k, EntryFor(op.k, op.v), s.root)));
      StepKeepsInv(init, s, Enter(i), s');
      EnterKeeps(s, i, s');
      PathOne(s, Enter(i), s');
      more, after := CanLeave(init, s', i);
      PathJoin(s, [Enter(i)], [s'], more, after);
      KeptOn(s, s', End(s', after), i);
      more, after := [Enter(i)] + more, [s'] + after;
    }
  }

  lemma EnterKeeps(s: State, i: nat, s': State)
    requires Next(s, Enter(i), s')
    ensures Kept(s, s', i)
  {
    hide Begin;
  }

  /** The same calls; what had left is as it was, and all others have left with their updates applied. */
  ghost predicate AllLeft(s: State, e: State)
  {
    && |e.writers| == |s.writers| && e.closed == s.closed && e.readers == s.readers
    && forall i :: 0 <= i < |s.writers| ==>
         e.writers[i].op == s.writers[i].op &&
         if s.writers[i].stage.Left? then e.writers[i] == s.writers[i] else LeftApplied(e, i)
  }

  lemma {:induction false} Drains(init: Tree, s: State) returns (more: seq<Step>, after: seq<State>)
    requires Inv(init, s)
    ensures Path(s, more, after) && Inv(init, End(s, after)) && AllLeft(s, End(s, after))
    decreases |s.writers| - LeftCount(s.writers)
  {
    hide MemOk, Inv, Next, LeftCount, Path;
    LeftFirst(init, s);
    var i := LeftCount(s.writers);
    if i == |s.writers| {
      more, after := [], [];
      assert Path(s, more, after) by { NoPath(s); }
    } else {
      more, after := OneOut(init, s);
      var s' := End(s, after);
      LeftFirst(init, s');
      assert LeftCount(s'.writers) > i;
      var rest, final := Drains(init, s');
      PathJoin(s, more, after, rest, final);
      more, after := more + rest, after + final;
    }
  }

  lemma NoPath(s: State)
    ensures Path(s, [], []) && End(s, []) == s
  {
  }

  /**
   * Every call of update that has reached the mutex can be carried out: from every reachable state, by
   * steps of the writers alone, each of them enters and leaves in turn with its update applied.
   */
  lemma {:induction false} AllCanLeave(m: Memory, root: nat, steps: seq<Step>, states: seq<State>)
    returns (more: seq<Step>, after: seq<State>)
    requires Run(m, root, steps, states)
    ensures Run(m, root, steps + more, states + after) && |after| == |more|
    ensures AllLeft(states[|steps|], (states + after)[|steps + more|])
  {
    hide Inv, Next, AllLeft, MemOk;
    RunKeepsInv(m, root, steps, states, |steps|);
    more, after := Drains(m.trees[root], states[|steps|]);
    RunGoesOn(m, root, steps, states, more, after);
  }

  // ---------------------------------------------------------------- finds and iterations

  /** A step of its own brings a read nearer to its end, and no step of another takes it further away. */
  lemma {:induction false} ReadLowers(init: Tree, s: State, step: Step, s': State, j: nat)
    requires Inv(init, s) && Next(s, step, s') && RootOk(init) && j < |s.readers|
    ensures j < |s'.readers|
    ensures (step.Go? || step.Receive?) && step.i == j ==>
              JobLeft(s'.m, s'.readers[j].job) < JobLeft(s.m, s.readers[j].job)
    ensures JobLeft(s'.m, s'.readers[j].job) <= JobLeft(s.m, s.readers[j].job)
    ensures GaveUp(s'.readers[j].job) <==> GaveUp(s.readers[j].job) || step == Refuse(j)
  {
    hide MemOk, LossesOk, RootIs, ChainOk, Sequential, JobOk, JobLeft, Continue, Received, Refused, RootOk, Next,
      LeftCount;
    assert ReaderOk(init, s, s.readers[j]);
    var t := Sequential(init, s.writers[..s.readers[j].seen]);
    StaysOk(init, s.writers[..s.readers[j].seen]);
    StepKeepsInv(init, s, step, s');
    OneReads(s, step, s', j);
    if step.Go? && step.i == j {
      MemoryOk(init, s);
      ContinueAhead(s.m, s.readers[j].job, step.stop, t);
    } else if step == Receive(j) {
      MemoryOk(init, s);
      ReceiveAhead(s.m, s.readers[j].job, t);
    } else if step == Refuse(j) {
      RefusedIs(s'.m, s.readers[j].job);
    } else {
      JobLeftLater(s.m, s'.m, s.readers[j].job, t);
    }
  }

  lemma MemoryOk(init: Tree, s: State)
    requires Inv(init, s)
    ensures MemOk(s.m)
  {
  }

  lemma RefusedIs(m: Memory, j: Job)
    requires Awaiting(j)
    ensures JobLeft(m, Refused(j)) == 0 && GaveUp(Refused(j)) && !GaveUp(j)
  {
  }

  /** What a step does to reader `j`. */
  lemma OneReads(s: State, step: Step, s': State, j: nat)
    requires Next(s, step, s') && j < |s.readers|
    ensures j < |s'.readers|
    ensures step.Go? && step.i == j ==> Runnable(s.readers[j].job) && s'.m == s.m &&
                                        s'.readers[j].job == Continue(s.m, s.readers[j].job, step.stop)
    ensures step == Receive(j) ==> Awaiting(s.readers[j].job) &&
                                   (s'.m, s'.readers[j].job) == Received(s.m, s.readers[j].job)
    ensures step == Refuse(j) ==> Awaiting(s.readers[j].job) && s'.m == s.m &&
                                  s'.readers[j].job == Refused(s.readers[j].job)
    ensures !((step.Go? || step.Receive? || step.Refuse?) && step.i == j) ==> s'.readers[j] == s.readers[j]
  {
    hide MemOk, Looked, Acted, Joined, Read, Stamp, Continue, Received, Refused, Begin, LeftCount, AllSaved, Loaded;
  }

  /** One step shows the callback at most one entry, and ends the iteration exactly if the callback says so then. */
  lemma CallbackStops(s: State, j: nat, stop: bool, s': State)
    requires Next(s, Go(j, stop), s') && s.readers[j].job.Iterating?
    ensures s'.readers[j].job.Iterating?
    ensures var w, w' := s.readers[j].job.walk, s'.readers[j].job.walk;
            && w.log <= w'.log && |w'.log| <= |w.log| + 1
            && (w'.phase == Ended(true) <==> w'.log != w.log && stop)
  {
    hide MemOk, FirstDiff, ChildAt, Listing;
  }

  predicate GaveUpAt(s: State, j: nat)
  {
    j < |s.readers| && GaveUp(s.readers[j].job)
  }

  predicate RefusedBefore(steps: seq<Step>, n: nat, j: nat)
    requires n <= |steps|
  {
    Refuse(j) in steps[..n]
  }

  lemma {:induction false} StepGivesUp(init: Tree, s: State, step: Step, s': State, j: nat)
    requires Inv(init, s) && Next(s, step, s') && RootOk(init)
    ensures GaveUpAt(s', j) <==> GaveUpAt(s, j) || step == Refuse(j)
  {
    hide Inv, RootOk, GaveUp, JobLeft;
    if j < |s.readers| {
      ReadLowers(init, s, step, s', j);
    } else {
      NewReads(s, step, s', j);
    }
  }

  lemma NewReads(s: State, step: Step, s': State, j: nat)
    requires Next(s, step, s') && j >= |s.readers|
    ensures step != Refuse(j) && !GaveUpAt(s', j)
  {
    hide MemOk, Looked, Acted, Joined, Read, Stamp, Continue, Received, Refused, Begin, LeftCount, AllSaved, Loaded;
  }

  /** A find or an iteration gives up exactly when a read of its own was refused. */
  lemma {:induction false} GivesUpWhenRefused(m: Memory, root: nat, steps: seq<Step>, states: seq<State>, n: nat,
      j: nat)
    requires Run(m, root, steps, states) && RootOk(m.trees[root]) && n <= |steps|
    ensures GaveUpAt(states[n], j) <==> RefusedBefore(steps, n, j)
  {
    hide Inv, Next, MemOk, RootOk, GaveUp;
    if n > 0 {
      RunKeepsInv(m, root, steps, states, n - 1);
      assert Next(states[n - 1], steps[n - 1], states[n - 1 + 1]);
      GivesUpWhenRefused(m, root, steps, states, n - 1, j);
      StepGivesUp(m.trees[root], states[n - 1], steps[n - 1], states[n], j);
      assert steps[..n] == steps[..n - 1] + [steps[n - 1]];
    }
  }

  /** Steps of reader `j`, with a callback that never stops it. */
  predicate Reads(step: Step, j: nat)
  {
    step == Go(j, false) || step == Receive(j)
  }

  predicate StoppedEarly(j: Job)
  {
    j.Iterating? && j.walk.phase == Ended(true)
  }

  predicate SameAsk(j: Job, j': Job)
  {
    match j
    case Finding(k, _) => j'.Finding? && j'.k == k
    case Iterating(w) => j'.Iterating? && j'.walk.p == w.p && j'.walk.k == w.k
  }

  /** Only reader `j` has gone on. */
  ghost predicate ReadOn(s: State, s': State, j: nat)
  {
    && s'.root == s.root && s'.writers == s.writers && s'.closed == s.closed
    && j < |s.readers| == |s'.readers| && SameAsk(s.readers[j].job, s'.readers[j].job)
    && s'.readers[j].seen == s.readers[j].seen
    && (StoppedEarly(s'.readers[j].job) ==> StoppedEarly(s.readers[j].job))
  }

  lemma ReadOnOn(a: State, b: State, c: State, j: nat)
    requires ReadOn(a, b, j) && ReadOn(b, c, j)
    ensures ReadOn(a, c, j)
  {
  }

  lemma ReadSteps(s: State, step: Step, s': State, j: nat)
    requires Next(s, step, s') && Reads(step, j)
    ensures ReadOn(s, s', j)
  {
    hide MemOk, Filled, FirstDiff, ChildAt, Listing;
  }

  /** A find or an iteration that has not given up can end, by steps of its own. */
  lemma {:induction false} CanEnd(init: Tree, s: State, j: nat) returns (more: seq<Step>, after: seq<State>)
    requires Inv(init, s) && RootOk(init) && j < |s.readers| && !GaveUp(s.readers[j].job)
    ensures Path(s, more, after) && forall x | x in more :: Reads(x, j)
    ensures Inv(init, End(s, after)) && (more == [] || ReadOn(s, End(s, after), j))
    ensures j < |End(s, after).readers| && Over(End(s, after).readers[j].job)
    decreases JobLeft(s.m, s.readers[j].job)
  {
    hide MemOk, Inv, Next, RootOk, Path, ReadOn, JobLeft, Continue, Received;
    if Over(s.readers[j].job) {
      NoPath(s);
      return [], [];
    }
    var step, s' := ReadEnabled(s, j);
    StepKeepsInv(init, s, step, s');
    ReadLowers(init, s, step, s', j);
    ReadSteps(s, step, s', j);
    PathOne(s, step, s');
    more, after := CanEnd(init, s', j);
    PathJoin(s, [step], [s'], more, after);
    if more != [] {
      ReadOnOn(s, s', End(s', after), j);
    } else {
      PathEmpty(s', after);
    }
    more, after := [step] + more, [s'] + after;
  }

  /** Any read that a job waits for may be refused. */
  lemma ReadMayFail(s: State, j: nat) returns (s': State)
    requires j < |s.readers| && Awaiting(s.readers[j].job)
    ensures Next(s, Refuse(j), s') && GaveUp(s'.readers[j].job)
  {
    s' := ToJob(s, j, Refused(s.readers[j].job));
  }

  lemma ReadEnabled(s: State, j: nat) returns (step: Step, s': State)
    requires j < |s.readers| && !GaveUp(s.readers[j].job) && !Over(s.readers[j].job)
    ensures Reads(step, j) && Next(s, step, s')
  {
    hide Continue, Received;
    var job := s.readers[j].job;
    if Runnable(job) {
      step, s' := Go(j, false), ToJob(s, j, Continue(s.m, job, false));
    } else {
      var r := Received(s.m, job);
      step, s' := Receive(j), ToJob(s, j, r.1).(m := r.0);
    }
  }

  /** What an ended read has to say about tree `t`. */
  ghost predicate Tells(j: Job, t: Tree)
  {
    match j
    case Finding(k, p) => p == FindPhase.Answered(Find(t, 0, k))
    case Iterating(w) =>
      match FindNode(t, 0, w.p)
      case None => w.phase == Missing
      case Some(g) => w.phase == Ended(false) && g.Node? && Walkable(TrieIter.Start(g, w.p)) &&
                      w.log == Walk(TrieIter.Start(g, w.p), w.k)
  }

  lemma OverTells(m: Memory, j: Job, t: Tree)
    requires JobOk(m, j, t) && RootOk(t) && Over(j) && !StoppedEarly(j)
    ensures Tells(j, t)
  {
    hide Find, Walk, Walkable, FindNode, RootOk;
  }

  /**
   * On an open index a find can be asked at every reachable state and can end, by steps of its own,
   * with the answer of the tree that is the root at that moment; so can an iteration, with the walk.
   */
  lemma {:induction false} ReadsCanEnd(m: Memory, root: nat, steps: seq<Step>, states: seq<State>, ask: Step)
    returns (more: seq<Step>, after: seq<State>)
    requires Run(m, root, steps, states) && RootOk(m.trees[root]) && !states[|steps|].closed
    requires ask.StartFind? || ask.StartIterate?
    ensures Run(m, root, steps + more, states + after) && more != [] && more[0] == ask
    ensures var s, e := states[|steps|], (states + after)[|steps + more|];
            var j := |s.readers|;
            && (forall x | x in more[1..] :: Reads(x, j))
            && s.root in s.m.trees && e.root == s.root && e.writers == s.writers
            && j < |e.readers| && Tells(e.readers[j].job, s.m.trees[s.root])
            && if ask.StartFind? then e.readers[j].job.Finding? && e.readers[j].job.k == ask.k
               else e.readers[j].job.Iterating? && e.readers[j].job.walk.p == ask.p && e.readers[j].job.walk.k == ask.k
  {
    hide Inv, Next, MemOk, RootOk, ReadOn, Tells;
    var init, s := m.trees[root], states[|steps|];
    RunKeepsInv(m, root, steps, states, |steps|);
    var s' := Asked(init, s, ask);
    more, after := CanEnd(init, s', |s.readers|);
    AnswersRoot(init, s, s', End(s', after), |s.readers|);
    PathOne(s, ask, s');
    PathJoin(s, [ask], [s'], more, after);
    more, after := [ask] + more, [s'] + after;
    RunGoesOn(m, root, steps, states, more, after);
  }

  ghost function JobFor(ask: Step, root: nat): Job
    requires ask.StartFind? || ask.StartIterate?
  {
    if ask.StartFind? then Finding(ask.k, Going(root, 0)) else Iterating(Walker(ask.p, ask.k, [], Seeking(root, 0)))
  }

  lemma {:induction false} Asked(init: Tree, s: State, ask: Step) returns (s': State)
    requires Inv(init, s) && !s.closed && (ask.StartFind? || ask.StartIterate?)
    ensures Next(s, ask, s') && Inv(init, s') && s'.root == s.root && s'.writers == s.writers
    ensures s'.readers == s.readers + [Reader(LeftCount(s.writers), JobFor(ask, s.root))]
  {
    hide Inv, LeftCount;
    s' := Started(s, JobFor(ask, s.root));
    StepKeepsInv(init, s, ask, s');
  }

  lemma {:induction false} AnswersRoot(init: Tree, s: State, s': State, e: State, j: nat)
    requires Inv(init, s) && Inv(init, s') && Inv(init, e) && RootOk(init) && j == |s.readers| == |s'.readers| - 1
    requires s'.root == s.root && s'.writers == s.writers && s'.readers[j].seen == LeftCount(s.writers)
    requires !StoppedEarly(s'.readers[j].job) && (e == s' || ReadOn(s', e, j))
    requires j < |e.readers| && Over(e.readers[j].job)
    ensures s.root in s.m.trees && Tells(e.readers[j].job, s.m.trees[s.root])
    ensures e.root == s.root && e.writers == s.writers && SameAsk(s'.readers[j].job, e.readers[j].job)
  {
    hide ChainOk, LossesOk, MemOk, JobOk, Sequential, LeftCount, Tells, RootOk, TaskOf, Over;
    assert ReaderOk(init, e, e.readers[j]);
    var before := s.writers[..LeftCount(s.writers)];
    StaysOk(init, before);
    OverTells(e.m, e.readers[j].job, Sequential(init, before));
  }

  /** On an open index an update can be called at every reachable state, and can be applied after all earlier ones. */
  lemma {:induction false} UpdatesCanApply(m: Memory, root: nat, steps: seq<Step>, states: seq<State>, op: Op)
    returns (more: seq<Step>, after: seq<State>)
    requires Run(m, root, steps, states) && !states[|steps|].closed
    ensures Run(m, root, steps + more, states + after) && more != [] && more[0] == Call(op)
    ensures var s, e := states[|steps|], (states + after)[|steps + more|];
            var i := |s.writers|;
            && |e.writers| == i + 1 && e.writers[i].op == op && LeftApplied(e, i)
            && forall x :: 0 <= x < i ==> e.writers[x].op == s.writers[x].op && e.writers[x].stage.Left?
  {
    hide Inv, Next, MemOk;
    var init, s := m.trees[root], states[|steps|];
    RunKeepsInv(m, root, steps, states, |steps|);
    var s' := Called(init, s, op);
    more, after := Drains(init, s');
    PathOne(s, Call(op), s');
    PathJoin(s, [Call(op)], [s'], more, after);
    more, after := [Call(op)] + more, [s'] + after;
    RunGoesOn(m, root, steps, states, more, after);
  }

  lemma {:induction false} Called(init: Tree, s: State, op: Op) returns (s': State)
    requires Inv(init, s) && !s.closed
    ensures Next(s, Call(op), s') && Inv(init, s') && |s'.writers| == |s.writers| + 1
    ensures s'.writers[..|s.writers|] == s.writers && s'.writers[|s.writers|].op == op &&
            s'.writers[|s.writers|].stage.Waiting?
  {
    hide Inv;
    var p := |s.writers| + 1;
    s' := s.(tail := p, writers := s.writers + [Writer(op, s.tail, p, Waiting)]);
    StepKeepsInv(init, s, Call(op), s');
  }
}
