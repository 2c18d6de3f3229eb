/**
 * Index under interleaving. Every await is a step boundary: writers queue on the promise chain of
 * the mutex, finds and iterations start at the root of the moment, and all work on the same nodes in
 * memory, which are filled by reads when these arrive, however late.
 */
module IndexRuns {
  import opened Bits
  import opened Wrappers
  import opened Trie
  import opened TrieMap
  import opened TrieReload
  import opened PotArena
  import opened PotReads
  import opened PotSplices
  import opened PotTasks
  import opened TrieIter

  datatype Op = Op(k: Key, v: Option<Value>)

  /** A writer: waiting for `previous`, inside its critical section, or out of it. */
  datatype Stage = Waiting | Inside(task: Task) | Left(applied: bool, loaded: nat)

  /** One call of Mutex.run: the promise it awaits and the one it resolves. */
  datatype Writer = Writer(op: Op, previous: nat, own: nat, stage: Stage)

  /** A find or an iteration: how many writers had left when it started, and how far it is. */
  datatype Reader = Reader(seen: nat, job: Job)

  /** Promise 0 is the resolved one that the mutex starts with. */
  datatype State = State(m: Memory, root: nat, tail: nat, resolved: set<nat>, writers: seq<Writer>,
                         readers: seq<Reader>, closed: bool)

  function Initial(m: Memory, root: nat): State
  {
    State(m, root, 0, {0}, [], [], false)
  }

  datatype Step =
    | Call(op: Op)
    | Enter(i: nat)
    | Work(i: nat)
    | Arrival(i: nat)
    | Save(i: nat, id: nat)
    | Leave(i: nat)
    | Fail(i: nat)
    | StartFind(k: Key)
    | StartIterate(p: seq<bool>, k: Key)
    | Go(i: nat, stop: bool)
    | Receive(i: nat)
    | Refuse(i: nat)
    | Close

  ghost function LeftCount(ws: seq<Writer>): (n: nat)
    ensures n <= |ws|
  {
    if ws == [] || !ws[0].stage.Left? then 0 else 1 + LeftCount(ws[1..])
  }

  function ToStage(s: State, i: nat, stage: Stage): State
    requires i < |s.writers|
  {
    s.(writers := s.writers[i := s.writers[i].(stage := stage)])
  }

  /** A step of the update of writer `i`. */
  ghost function Worked(s: State, i: nat, r: (Memory, Task)): State
    requires i < |s.writers|
  {
    ToStage(s, i, Inside(r.1)).(m := r.0)
  }

  function ToJob(s: State, i: nat, j: Job): State
    requires i < |s.readers|
  {
    s.(readers := s.readers[i := s.readers[i].(job := j)])
  }

  /** A read of the index starts at the root of the moment, unless the index is closed. */
  ghost function Started(s: State, j: Job): State
  {
    if s.closed then s else s.(readers := s.readers + [Reader(LeftCount(s.writers), j)])
  }

  predicate Busy(s: State, i: nat)
  {
    i < |s.writers| && s.writers[i].stage.Inside?
  }

  /** updateInner has returned, and its result is being saved. */
  predicate Returned(w: Task)
  {
    w.phase.Back? && w.frames == []
  }

  /** The writer leaves: its root, if it has one, is the new root, and the next writer may enter. */
  function Released(s: State, i: nat, root: nat, stage: Stage): State
    requires i < |s.writers|
  {
    ToStage(s, i, stage).(root := root, resolved := s.resolved + {s.writers[i].own})
  }

  ghost predicate Next(s: State, step: Step, s': State)
  {
    match step
    case Call(op) =>
      // update throws before it reaches the mutex when the index is closed
      if s.closed then s' == s
      else
        var p := |s.writers| + 1;
        s' == s.(tail := p, writers := s.writers + [Writer(op, s.tail, p, Waiting)])
    case Enter(i) =>
      && i < |s.writers| && s.writers[i].stage.Waiting? && s.writers[i].previous in s.resolved
      && var op := s.writers[i].op;
         s' == ToStage(s, i, Inside(Begin(op.k, EntryFor(op.k, op.v), s.root)))
    case Work(i) =>
      Busy(s, i) &&
      var w := s.writers[i].stage.task;
      if w.phase.At? then s' == Worked(s, i, Looked(s.m, w))
      else if w.phase.Ready? then s' == Worked(s, i, Acted(s.m, w))
      else w.phase.Back? && w.frames != [] && s' == Worked(s, i, Joined(s.m, w))
    case Arrival(i) =>
      Busy(s, i) && s.writers[i].stage.task.phase.Reading? && s' == Worked(s, i, Read(s.m, s.writers[i].stage.task))
    case Save(i, id) =>
      && Busy(s, i) && Returned(s.writers[i].stage.task)
      && Loaded(s.m, id) && s.m.cells[id].ref.None? && AllSaved(s.m, s.m.cells[id].forks)
      && s' == s.(m := Stamp(s.m, id))
    case Leave(i) =>
      Busy(s, i) && Returned(s.writers[i].stage.task) &&
      var w := s.writers[i].stage.task;
      var r := w.phase.res;
      // an empty root has nothing to save
      && (r.Some? ==> CellOf(s.m, r.value).ref.Some? || CellOf(s.m, r.value).pinned.None?)
      && s' == Released(s, i, if r.Some? then r.value else s.root, Left(true, w.loaded))
    case Fail(i) =>
      // a failed read or write leaves the root alone, and releases the mutex all the same
      && Busy(s, i) && (s.writers[i].stage.task.phase.Reading? || Returned(s.writers[i].stage.task))
      && s' == Released(s, i, s.root, Left(false, s.writers[i].stage.task.loaded))
    case StartFind(k) =>
      s' == Started(s, Finding(k, Going(s.root, 0)))
    case StartIterate(p, k) =>
      s' == Started(s, Iterating(Walker(p, k, [], Seeking(s.root, 0))))
    case Go(i, stop) =>
      && i < |s.readers| && Runnable(s.readers[i].job)
      && s' == ToJob(s, i, Continue(s.m, s.readers[i].job, stop))
    case Receive(i) =>
      && i < |s.readers| && Awaiting(s.readers[i].job)
      && var r := Received(s.m, s.readers[i].job);
         s' == ToJob(s, i, r.1).(m := r.0)
    case Refuse(i) =>
      && i < |s.readers| && Awaiting(s.readers[i].job)
      && s' == ToJob(s, i, Refused(s.readers[i].job))
    case Close =>
      s' == s.(closed := true)
  }

  /** `states` are the states of a run that begins with `root` and takes `steps`. */
  ghost predicate Run(m: Memory, root: nat, steps: seq<Step>, states: seq<State>)
  {
    && MemOk(m) && Entered(m, root)
    && |states| == |steps| + 1 && states[0] == Initial(m, root)
    && forall i :: 0 <= i < |steps| ==> Next(states[i], steps[i], states[i + 1])
  }

  function Applied(t: Tree, op: Op, loaded: nat): Tree
  {
    NewRoot(t, Update(t, op.k, EntryFor(op.k, op.v), loaded))
  }

  /** The updates of `ws` that were applied, one after the other, in the order of the calls. */
  ghost function Sequential(t: Tree, ws: seq<Writer>): Tree
  {
    if ws == [] then t
    else
      var w := ws[|ws| - 1];
      var before := Sequential(t, ws[..|ws| - 1]);
      match w.stage
      case Left(true, loaded) => Applied(before, w.op, loaded)
      case _ => before
  }

  // ---------------------------------------------------------------- the invariant

  /** The writers that have left come first, and at most one is inside. */
  ghost predicate ChainOk(s: State)
  {
    var n := LeftCount(s.writers);
    && s.tail == |s.writers|
    && (forall i :: 0 <= i < |s.writers| ==> s.writers[i].previous == i && s.writers[i].own == i + 1)
    && (forall i :: 0 <= i < |s.writers| ==> (s.writers[i].stage.Left? <==> i < n))
    && (forall i :: 0 <= i < |s.writers| && s.writers[i].stage.Inside? ==> i == n)
    && (forall p: nat :: p in s.resolved <==> p <= n)
  }

  /** The root stands for the updates so far, and the writer inside is on its way to the next tree. */
  ghost predicate RootIs(init: Tree, s: State)
  {
    && MemOk(s.m) && Entered(s.m, s.root)
    && s.m.trees[s.root] == Sequential(init, s.writers[..LeftCount(s.writers)])
    && forall i :: 0 <= i < |s.writers| && s.writers[i].stage.Inside? ==>
       TaskOf(s, s.writers[i].op, s.writers[i].stage.task)
  }

  ghost predicate TaskOf(s: State, op: Op, w: Task)
    requires s.root in s.m.trees
  {
    w.k == op.k && w.e == EntryFor(op.k, op.v) && TaskOk(s.m, w, s.m.trees[s.root])
  }

  /** Nothing was lost with a key unless the key's node had something below it. */
  ghost predicate LossesOk(init: Tree, s: State)
  {
    forall i :: 0 <= i < |s.writers| && s.writers[i].stage.Left? && s.writers[i].stage.loaded == 0 ==>
      s.writers[i].op.v.None? && !Bare(Sequential(init, s.writers[..i]), 0, s.writers[i].op.k)
  }

  ghost predicate ReaderOk(init: Tree, s: State, r: Reader)
  {
    && r.seen <= LeftCount(s.writers) <= |s.writers|
    && JobOk(s.m, r.job, Sequential(init, s.writers[..r.seen]))
  }

  ghost predicate ReadersOk(init: Tree, s: State)
  {
    forall r | r in s.readers :: ReaderOk(init, s, r)
  }

  ghost predicate Inv(init: Tree, s: State)
  {
    ChainOk(s) && RootIs(init, s) && LossesOk(init, s) && ReadersOk(init, s)
  }

  // ---------------------------------------------------------------- every step keeps it

  lemma {:induction false} LeftCountIs(ws: seq<Writer>)
    ensures var n := LeftCount(ws);
            (forall i :: 0 <= i < n ==> ws[i].stage.Left?) && (n < |ws| ==> !ws[n].stage.Left?)
  {
    if ws != [] && ws[0].stage.Left? {
      LeftCountIs(ws[1..]);
    }
  }

  lemma LeftCountUnique(ws: seq<Writer>, n: nat)
    requires n <= |ws| && (forall i :: 0 <= i < n ==> ws[i].stage.Left?) && (n < |ws| ==> !ws[n].stage.Left?)
    ensures LeftCount(ws) == n
  {
    LeftCountIs(ws);
  }

  /** The writers that had left are still there, and the memory has only grown. */
  ghost predicate Follows(s: State, s': State)
  {
    var n := LeftCount(s.writers);
    && n <= |s.writers| && n <= LeftCount(s'.writers) <= |s'.writers| && s.writers[..n] == s'.writers[..n]
    && Later(s.m, s'.m) && MemOk(s'.m)
  }

  lemma {:induction false} ReaderKept(init: Tree, s: State, r: Reader, s': State)
    requires ReaderOk(init, s, r) && Follows(s, s')
    ensures ReaderOk(init, s', r)
  {
    hide Sequential, Later, MemOk, JobOk, LeftCount;
    var n := LeftCount(s.writers);
    assert s.writers[..r.seen] == s.writers[..n][..r.seen] == s'.writers[..n][..r.seen] == s'.writers[..r.seen];
    JobLater(s.m, s'.m, r.job, Sequential(init, s.writers[..r.seen]));
  }

  lemma {:induction false} ReadersKept(init: Tree, s: State, s': State)
    requires ReadersOk(init, s) && Follows(s, s') && s'.readers == s.readers
    ensures ReadersOk(init, s')
  {
    hide ReaderOk, Follows;
    forall r | r in s'.readers
      ensures ReaderOk(init, s', r)
    {
      ReaderKept(init, s, r, s');
    }
  }

  /** A step of one read of the index keeps the others. */
  lemma {:induction false} OneReader(init: Tree, s: State, i: nat, r: Reader, s': State)
    requires ReadersOk(init, s) && Follows(s, s') && i < |s.readers| && s'.readers == s.readers[i := r]
    requires ReaderOk(init, s', r)
    ensures ReadersOk(init, s')
  {
    hide ReaderOk, Follows;
    forall x | x in s'.readers
      ensures ReaderOk(init, s', x)
    {
      if x != r {
        ReaderKept(init, s, x, s');
      }
    }
  }

  /** A step that leaves the writers and the root alone. */
  lemma {:induction false} WritersKept(init: Tree, s: State, s': State)
    requires ChainOk(s) && RootIs(init, s) && LossesOk(init, s)
    requires s'.writers == s.writers && s'.root == s.root && s'.tail == s.tail && s'.resolved == s.resolved
    requires MemOk(s'.m) && Later(s.m, s'.m)
    ensures ChainOk(s') && RootIs(init, s') && LossesOk(init, s') && Follows(s, s')
  {
    hide MemOk, Sequential, LeftCount, TaskOk, Bare;
    EnteredLater(s.m, s'.m, s.root);
    TasksKept(s, s');
  }

  lemma {:induction false} TasksKept(s: State, s': State)
    requires Entered(s.m, s.root) && Entered(s'.m, s.root) && s'.root == s.root
    requires MemOk(s.m) && MemOk(s'.m) && Later(s.m, s'.m)
    ensures forall op, w | TaskOf(s, op, w) :: TaskOf(s', op, w)
  {
    hide MemOk, TaskOk;
    forall op, w | TaskOf(s, op, w)
      ensures TaskOf(s', op, w)
    {
      TaskLater(s.m, s'.m, w, s.m.trees[s.root]);
    }
  }

  /** The stage of the first writer that has not left changes. */
  lemma {:induction false} ChainInside(s: State, s': State, stage: Stage)
    requires ChainOk(s) && LeftCount(s.writers) < |s.writers| && stage.Inside?
    requires s'.writers == ToStage(s, LeftCount(s.writers), stage).writers && s'.tail == s.tail &&
             s'.resolved == s.resolved
    ensures ChainOk(s') && LeftCount(s'.writers) == LeftCount(s.writers)
    ensures s'.writers[..LeftCount(s.writers)] == s.writers[..LeftCount(s.writers)]
  {
    LeftCountIs(s.writers);
    LeftCountUnique(s'.writers, LeftCount(s.writers));
  }

  lemma {:induction false} ChainLeft(s: State, s': State, root: nat, stage: Stage)
    requires ChainOk(s) && LeftCount(s.writers) < |s.writers| && stage.Left?
    requires s' == Released(s, LeftCount(s.writers), root, stage)
    ensures ChainOk(s') && LeftCount(s'.writers) == LeftCount(s.writers) + 1
    ensures s'.writers[..LeftCount(s.writers)] == s.writers[..LeftCount(s.writers)]
  {
    LeftCountIs(s.writers);
    LeftCountUnique(s'.writers, LeftCount(s.writers) + 1);
  }

  lemma {:induction false} ChainCall(s: State, op: Op, s': State)
    requires ChainOk(s) && !s.closed && Next(s, Call(op), s')
    ensures ChainOk(s') && LeftCount(s'.writers) == LeftCount(s.writers)
    ensures s'.writers[..LeftCount(s.writers)] == s.writers[..LeftCount(s.writers)]
  {
    hide MemOk, Looked, Acted, Joined, Read, Stamp, Continue, Received, Refused, Begin, AllSaved, Loaded, LeftCount;
    LeftCountIs(s.writers);
    LeftCountUnique(s'.writers, LeftCount(s.writers));
  }

  lemma {:induction false} CallKeepsInv(init: Tree, s: State, op: Op, s': State)
    requires Inv(init, s) && Next(s, Call(op), s')
    ensures Inv(init, s') && Follows(s, s')
  {
    hide MemOk, Sequential, TaskOk, Bare, ReadersOk, LossesOk, LeftCount, Later, Entered;
    LaterSame(s.m);
    if !s.closed {
      ChainCall(s, op, s');
      LossesPrefix(init, s, s');
      ReadersKept(init, s, s');
    }
  }

  /** The writers that have left are the same ones. */
  lemma {:induction false} LossesPrefix(init: Tree, s: State, s': State)
    requires ChainOk(s) && LossesOk(init, s) && Follows(s, s') && LeftCount(s.writers) == LeftCount(s'.writers)
    requires forall i :: 0 <= i < |s'.writers| && s'.writers[i].stage.Left? ==> i < LeftCount(s.writers)
    ensures LossesOk(init, s')
  {
    hide MemOk, Sequential, Bare, Later, LeftCount;
    var n := LeftCount(s.writers);
    forall i | 0 <= i < |s'.writers| && s'.writers[i].stage.Left? && s'.writers[i].stage.loaded == 0
      ensures s'.writers[i].op.v.None? && !Bare(Sequential(init, s'.writers[..i]), 0, s'.writers[i].op.k)
    {
      assert s'.writers[i] == s'.writers[..n][i] == s.writers[i];
      assert s'.writers[..i] == s'.writers[..n][..i] == s.writers[..i];
    }
  }

  lemma {:induction false} EnterKeepsInv(init: Tree, s: State, i: nat, s': State)
    requires Inv(init, s) && Next(s, Enter(i), s')
    ensures Inv(init, s') && Follows(s, s')
  {
    hide MemOk, Sequential, Bare, ReadersOk, LossesOk, Later, Entered;
    LaterSame(s.m);
    LeftCountIs(s.writers);
    assert s.writers[i].previous <= LeftCount(s.writers) && i == LeftCount(s.writers);
    ChainInside(s, s', s'.writers[i].stage);
    BeginOk(s.m, s'.writers[i].stage.task, s.root);
    LossesPrefix(init, s, s');
    ReadersKept(init, s, s');
  }

  lemma BeginOk(m: Memory, w: Task, root: nat)
    requires MemOk(m) && Entered(m, root) && w == Begin(w.k, w.e, root)
    ensures TaskOk(m, w, m.trees[root])
  {
    NoKids(m.trees);
  }

  /** A step of the update inside the critical section. */
  lemma {:induction false} WorkedKeepsInv(init: Tree, s: State, i: nat, r: (Memory, Task), s': State)
    requires Inv(init, s) && Busy(s, i) && s' == Worked(s, i, r)
    requires StepOk(s.m, r, s.m.trees[s.root]) && r.1.k == s.writers[i].op.k && r.1.e == s.writers[i].stage.task.e
    ensures Inv(init, s') && Follows(s, s')
  {
    hide MemOk, Sequential, Bare, ReadersOk, LossesOk, Later, TaskOk;
    ChainInside(s, s', s'.writers[i].stage);
    EnteredLater(s.m, s'.m, s.root);
    KeptTree(s, s');
    LossesPrefix(init, s, s');
    ReadersKept(init, s, s');
  }

  lemma KeptTree(s: State, s': State)
    requires Later(s.m, s'.m) && s.root in s.m.trees
    ensures s.root in s'.m.trees && s'.m.trees[s.root] == s.m.trees[s.root]
  {
  }

  lemma {:induction false} WorkKeepsInv(init: Tree, s: State, step: Step, s': State)
    requires Inv(init, s) && Next(s, step, s') && (step.Work? || step.Arrival?)
    ensures Inv(init, s') && Follows(s, s')
  {
    hide MemOk, Follows, Looked, Acted, Joined, Read, TaskOk, StepOk, ReadersOk, LossesOk, ChainOk;
    var i := step.i;
    var w, t := s.writers[i].stage.task, s.m.trees[s.root];
    assert TaskOf(s, s.writers[i].op, w);
    SameOp(s.m, w);
    if step.Arrival? {
      ReadOk(s.m, w, t);
      WorkedKeepsInv(init, s, i, Read(s.m, w), s');
    } else if w.phase.At? {
      LookOk(s.m, w, t);
      WorkedKeepsInv(init, s, i, Looked(s.m, w), s');
    } else if w.phase.Ready? {
      ActOk(s.m, w, t);
      WorkedKeepsInv(init, s, i, Acted(s.m, w), s');
    } else {
      JoinOk(s.m, w, t);
      WorkedKeepsInv(init, s, i, Joined(s.m, w), s');
    }
  }

  /** A step changes neither the key nor the entry of an update. */
  lemma SameOp(m: Memory, w: Task)
    ensures w.phase.At? ==> Looked(m, w).1.k == w.k && Looked(m, w).1.e == w.e
    ensures w.phase.Reading? ==> Read(m, w).1.k == w.k && Read(m, w).1.e == w.e
    ensures w.phase.Ready? ==> Acted(m, w).1.k == w.k && Acted(m, w).1.e == w.e
    ensures w.phase.Back? && w.frames != [] ==> Joined(m, w).1.k == w.k && Joined(m, w).1.e == w.e
  {
    hide New, FirstDiff, MemOk, Reach, Pulled, ChildAt, Whacked, Whirled, Wedged;
  }

  /** The writer inside leaves with the tree that its update gives, or without having done anything. */
  lemma {:induction false} ReleasedKeepsInv(init: Tree, s: State, i: nat, root: nat, stage: Stage, s': State)
    requires Inv(init, s) && Busy(s, i) && stage.Left? && s' == Released(s, i, root, stage)
    requires Entered(s.m, root)
    requires var t := s.m.trees[s.root];
             && s.m.trees[root] == (if stage.applied then Applied(t, s.writers[i].op, stage.loaded) else t)
             && (stage.loaded == 0 ==> s.writers[i].op.v.None? && !Bare(t, 0, s.writers[i].op.k))
    ensures Inv(init, s') && Follows(s, s')
  {
    hide MemOk, Bare, ReadersOk, Later, TaskOf, Applied;
    LaterSame(s.m);
    var n := LeftCount(s.writers);
    ChainLeft(s, s', root, stage);
    assert s'.writers[..n + 1][..n] == s.writers[..n];
    LossAdded(init, s, s');
    ReadersKept(init, s, s');
  }

  lemma {:induction false} LossAdded(init: Tree, s: State, s': State)
    requires ChainOk(s) && LossesOk(init, s) && ChainOk(s')
    requires var n := LeftCount(s.writers);
             && LeftCount(s'.writers) == n + 1 && s'.writers[..n] == s.writers[..n]
             && (s'.writers[n].stage.loaded == 0 ==>
                   s'.writers[n].op.v.None? && !Bare(Sequential(init, s.writers[..n]), 0, s'.writers[n].op.k))
    ensures LossesOk(init, s')
  {
    hide MemOk, Sequential, Bare, Later, LeftCount;
    var n := LeftCount(s.writers);
    forall i | 0 <= i < |s'.writers| && s'.writers[i].stage.Left? && s'.writers[i].stage.loaded == 0
      ensures s'.writers[i].op.v.None? && !Bare(Sequential(init, s'.writers[..i]), 0, s'.writers[i].op.k)
    {
      if i < n {
        assert s'.writers[i] == s'.writers[..n][i] == s.writers[i];
        assert s'.writers[..i] == s'.writers[..n][..i] == s.writers[..i];
      }
    }
  }

  lemma {:induction false} LeaveKeepsInv(init: Tree, s: State, i: nat, s': State)
    requires Inv(init, s) && Next(s, Leave(i), s')
    ensures Inv(init, s') && Follows(s, s')
  {
    hide MemOk, Bare, ReadersOk, LossesOk, ChainOk, Follows, Update, Sequential;
    var w := s.writers[i].stage.task;
    assert TaskOf(s, s.writers[i].op, w);
    var root := if w.phase.res.Some? then w.phase.res.value else s.root;
    ReleasedKeepsInv(init, s, i, root, Left(true, w.loaded), s');
  }

  lemma {:induction false} FailKeepsInv(init: Tree, s: State, i: nat, s': State)
    requires Inv(init, s) && Next(s, Fail(i), s')
    ensures Inv(init, s') && Follows(s, s')
  {
    hide MemOk, Bare, ReadersOk, LossesOk, ChainOk, Follows, Applied, Sequential, Update;
    var w := s.writers[i].stage.task;
    assert TaskOf(s, s.writers[i].op, w);
    ReleasedKeepsInv(init, s, i, s.root, Left(false, w.loaded), s');
  }

  lemma {:induction false} SaveKeepsInv(init: Tree, s: State, i: nat, id: nat, s': State)
    requires Inv(init, s) && Next(s, Save(i, id), s')
    ensures Inv(init, s') && Follows(s, s')
  {
    hide MemOk, Later, ReadersOk, LossesOk, ChainOk, Sequential, TaskOf, Stamp;
    StampOk(s.m, id);
    WritersKept(init, s, s');
    ReadersKept(init, s, s');
  }

  lemma {:induction false} StartKeepsInv(init: Tree, s: State, j: Job, s': State)
    requires Inv(init, s) && s' == Started(s, j) && JobOk(s.m, j, s.m.trees[s.root])
    ensures Inv(init, s') && Follows(s, s')
  {
    hide MemOk, Later, LossesOk, ChainOk, Sequential, TaskOf, LeftCount, ReaderOk, JobOk;
    LaterSame(s.m);
    WritersKept(init, s, s');
    forall r | r in s'.readers
      ensures ReaderOk(init, s', r)
    {
      if r in s.readers {
        ReaderKept(init, s, r, s');
      } else {
        NewReaderOk(init, s, r, s');
      }
    }
  }

  lemma NewReaderOk(init: Tree, s: State, r: Reader, s': State)
    requires RootIs(init, s) && r.seen == LeftCount(s.writers) && JobOk(s.m, r.job, s.m.trees[s.root])
    requires s'.m == s.m && s'.writers == s.writers
    ensures ReaderOk(init, s', r)
  {
    hide MemOk, Sequential, TaskOf, LeftCount, JobOk;
  }

  lemma {:induction false} GoKeepsInv(init: Tree, s: State, step: Step, s': State)
    requires Inv(init, s) && Next(s, step, s') && (step.Go? || step.Receive? || step.Refuse?)
    ensures Inv(init, s') && Follows(s, s')
  {
    hide MemOk, Later, LossesOk, ChainOk, Sequential, TaskOf, LeftCount, JobOk, Continue, Received, Refused, Follows;
    var i := step.i;
    var r := s.readers[i];
    assert ReaderOk(init, s, r);
    var t := Sequential(init, s.writers[..r.seen]);
    LaterSame(s.m);
    match step {
      case Go(_, stop) => ContinueOk(s.m, r.job, stop, t);
      case Receive(_) => ReceivedOk(s.m, r.job, t);
      case Refuse(_) => RefusedOk(s.m, r.job, t);
    }
    WritersKept(init, s, s');
    OneReader(init, s, i, s'.readers[i], s');
  }

  lemma {:induction false} CloseKeepsInv(init: Tree, s: State, s': State)
    requires Inv(init, s) && Next(s, Close, s')
    ensures Inv(init, s') && Follows(s, s')
  {
    hide MemOk, Later, LossesOk, ChainOk, Sequential, TaskOf, LeftCount, ReadersOk;
    LaterSame(s.m);
    WritersKept(init, s, s');
    ReadersKept(init, s, s');
  }

  /** Every step keeps the invariant, and every node keeps its meaning. */
  lemma {:induction false} StepKeepsInv(init: Tree, s: State, step: Step, s': State)
    requires Inv(init, s) && Next(s, step, s')
    ensures Inv(init, s') && Follows(s, s')
  {
    hide Inv, Follows, MemOk, TaskOk, Looked, Acted, Joined, Read, Stamp, Continue, Received, Find;
    match step
    case Call(op) => CallKeepsInv(init, s, op, s');
    case Enter(i) => EnterKeepsInv(init, s, i, s');
    case Work(_) => WorkKeepsInv(init, s, step, s');
    case Arrival(_) => WorkKeepsInv(init, s, step, s');
    case Save(i, id) => SaveKeepsInv(init, s, i, id, s');
    case Leave(i) => LeaveKeepsInv(init, s, i, s');
    case Fail(i) => FailKeepsInv(init, s, i, s');
    case Close => CloseKeepsInv(init, s, s');
    case Go(_, _) => GoKeepsInv(init, s, step, s');
    case Receive(_) => GoKeepsInv(init, s, step, s');
    case Refuse(_) => GoKeepsInv(init, s, step, s');
    case StartFind(k) => AskKeepsInv(init, s, Finding(k, Going(s.root, 0)), s');
    case StartIterate(p, k) => AskKeepsInv(init, s, Iterating(Walker(p, k, [], Seeking(s.root, 0))), s');
  }

  /** A find or an iteration starts at the root. */
  lemma {:induction false} AskKeepsInv(init: Tree, s: State, j: Job, s': State)
    requires Inv(init, s) && s' == Started(s, j)
    requires (j.Finding? && j.find == Going(s.root, 0)) ||
             (j.Iterating? && j.walk.log == [] && j.walk.phase == Seeking(s.root, 0))
    ensures Inv(init, s') && Follows(s, s')
  {
    hide Follows, ChainOk, LossesOk, ReadersOk, MemOk, TaskOf, Find, Sequential, Started;
    StartKeepsInv(init, s, j, s');
  }

  // ---------------------------------------------------------------- runs

  /** Every reachable state satisfies the invariant. */
  lemma {:induction false} RunKeepsInv(m: Memory, root: nat, steps: seq<Step>, states: seq<State>, i: nat)
    requires Run(m, root, steps, states) && i <= |steps|
    ensures Inv(m.trees[root], states[i])
  {
    hide Inv, Next;
    if i == 0 {
      StartOk(m, root);
    } else {
      RunKeepsInv(m, root, steps, states, i - 1);
      assert Next(states[i - 1], steps[i - 1], states[i - 1 + 1]);
      StepKeepsInv(m.trees[root], states[i - 1], steps[i - 1], states[i]);
    }
  }

  lemma StartOk(m: Memory, root: nat)
    requires MemOk(m) && Entered(m, root)
    ensures Inv(m.trees[root], Initial(m, root))
  {
    hide MemOk;
    assert Initial(m, root).writers[..0] == [];
  }

  /** How a run goes on: nodes keep their meaning, writers that left stay, readers keep what they saw. */
  ghost predicate Continues(s: State, s': State)
  {
    && Later(s.m, s'.m) && LeftCount(s.writers) <= LeftCount(s'.writers)
    && |s.readers| <= |s'.readers| && forall j :: 0 <= j < |s.readers| ==> s'.readers[j].seen == s.readers[j].seen
  }

  lemma {:induction false} StepContinues(init: Tree, s: State, step: Step, s': State)
    requires Inv(init, s) && Next(s, step, s')
    ensures Continues(s, s')
    ensures forall j :: |s.readers| <= j < |s'.readers| ==> s'.readers[j].seen == LeftCount(s.writers)
  {
    hide Inv, Next, MemOk, Later, LeftCount;
    StepKeepsInv(init, s, step, s');
    ReadersStay(s, step, s');
  }

  /** Readers stay in place with what they saw; a new one has seen all writers that have left. */
  lemma ReadersStay(s: State, step: Step, s': State)
    requires Next(s, step, s')
    ensures |s.readers| <= |s'.readers| && forall j :: 0 <= j < |s.readers| ==> s'.readers[j].seen == s.readers[j].seen
    ensures forall j :: |s.readers| <= j < |s'.readers| ==> s'.readers[j].seen == LeftCount(s.writers)
  {
    hide MemOk, Looked, Acted, Joined, Read, Stamp, Continue, Received, Refused, Begin, LeftCount, Loaded, AllSaved;
  }

  lemma SeenBefore(init: Tree, s: State)
    requires Inv(init, s)
    ensures Continues(s, s) && forall j :: 0 <= j < |s.readers| ==> s.readers[j].seen <= LeftCount(s.writers)
  {
    hide ChainOk, RootIs, LossesOk, MemOk, JobOk, LeftCount;
    assert forall j :: 0 <= j < |s.readers| ==> ReaderOk(init, s, s.readers[j]);
  }

  /** Readers that had started in `s` saw no writer that left later, and those that start later all that had left. */
  ghost predicate InRealTime(s: State, s': State)
  {
    && (forall j :: 0 <= j < |s.readers| && j < |s'.readers| ==> s'.readers[j].seen <= LeftCount(s.writers))
    && (forall j :: |s.readers| <= j < |s'.readers| ==> s'.readers[j].seen >= LeftCount(s.writers))
  }

  /** From state `i` on, `n` is later: the real-time order of reads and updates. */
  lemma {:induction false} RealTime(m: Memory, root: nat, steps: seq<Step>, states: seq<State>, i: nat, n: nat)
    requires Run(m, root, steps, states) && i <= n <= |steps|
    ensures Continues(states[i], states[n]) && InRealTime(states[i], states[n])
  {
    hide Next, MemOk, LeftCount, Inv, Later;
    if i == n {
      RunKeepsInv(m, root, steps, states, i);
      SeenBefore(m.trees[root], states[i]);
    } else {
      RealTime(m, root, steps, states, i, n - 1);
      RunKeepsInv(m, root, steps, states, n - 1);
      assert Next(states[n - 1], steps[n - 1], states[n - 1 + 1]);
      StepContinues(m.trees[root], states[n - 1], steps[n - 1], states[n]);
      LaterAll(states[i].m, states[n - 1].m, states[n].m);
    }
  }

  /**
   * Whatever the interleaving, updates run one at a time in the order of the calls, the root stands
   * for what they give one after the other, and a find answers for the tree of the updates that had
   * left when it started: of all that left before, and of none that left later.
   */
  lemma {:induction false} Linearizable(m: Memory, root: nat, steps: seq<Step>, states: seq<State>, n: nat)
    requires Run(m, root, steps, states) && n <= |steps|
    ensures var s, init := states[n], m.trees[root];
            && (forall i, j :: 0 <= i < j < |s.writers| && s.writers[j].stage != Waiting ==> s.writers[i].stage.Left?)
            && s.root in s.m.trees && s.m.trees[s.root] == Sequential(init, s.writers)
            && forall r | r in s.readers && r.job.Finding? && r.job.find.Answered? ::
                 r.seen <= |s.writers| && r.job.find.answer == Find(Sequential(init, s.writers[..r.seen]), 0, r.job.k)
    ensures forall i :: 0 <= i <= n ==> InRealTime(states[i], states[n])
  {
    hide InRealTime;
    TakesEffect(m, root, steps, states, n);
    forall i | 0 <= i <= n
      ensures InRealTime(states[i], states[n])
    {
      RealTime(m, root, steps, states, i, n);
    }
  }

  lemma TakesEffect(m: Memory, root: nat, steps: seq<Step>, states: seq<State>, n: nat)
    requires Run(m, root, steps, states) && n <= |steps|
    ensures var s, init := states[n], m.trees[root];
            && (forall i, j :: 0 <= i < j < |s.writers| && s.writers[j].stage != Waiting ==> s.writers[i].stage.Left?)
            && s.root in s.m.trees && s.m.trees[s.root] == Sequential(init, s.writers)
            && forall r | r in s.readers && r.job.Finding? && r.job.find.Answered? ::
                 r.seen <= |s.writers| && r.job.find.answer == Find(Sequential(init, s.writers[..r.seen]), 0, r.job.k)
  {
    RunKeepsInv(m, root, steps, states, n);
    hide MemOk, TaskOk, Find, Run;
    SequentialIgnoresUnfinished(m.trees[root], states[n].writers, LeftCount(states[n].writers));
    assert forall r | r in states[n].readers :: ReaderOk(m.trees[root], states[n], r);
  }

  lemma {:induction false} SequentialIgnoresUnfinished(t: Tree, ws: seq<Writer>, n: nat)
    requires n <= |ws| && forall i :: n <= i < |ws| ==> !ws[i].stage.Left?
    ensures Sequential(t, ws) == Sequential(t, ws[..n])
    decreases |ws|
  {
    hide Applied;
    if n == |ws| {
      assert ws[..n] == ws;
    } else {
      var m := |ws| - 1;
      SequentialIgnoresUnfinished(t, ws[..m], n);
      assert ws[..m][..n] == ws[..n];
    }
  }

  // ---------------------------------------------------------------- what updates do to the map

  /** In this step writer `i` removes its key from a cell whose last child is not in memory. */
  ghost predicate PullsPacked(s: State, step: Step, i: nat)
  {
    step == Work(i) && Busy(s, i) &&
    var w := s.writers[i].stage.task;
    && w.phase.Ready? && w.phase.po >= DEPTH && w.e.None?
    && var last := LastChild(CellOf(s.m, w.phase.id).forks, w.phase.at);
       last.Some? && !Loaded(s.m, last.value.id)
  }

  /** How much a removal of writer `i` found in memory; 1 as long as it has removed nothing. */
  function FoundLoaded(s: State, i: nat): nat
  {
    if i >= |s.writers| then 1
    else
      match s.writers[i].stage
      case Waiting => 1
      case Inside(task) => task.loaded
      case Left(_, loaded) => loaded
  }

  lemma {:induction false} PullStep(init: Tree, s: State, step: Step, s': State, i: nat)
    requires Inv(init, s) && Next(s, step, s')
    ensures FoundLoaded(s', i) == 0 <==> FoundLoaded(s, i) == 0 || PullsPacked(s, step, i)
  {
    hide MemOk, TaskOk, Looked, Acted, Joined, Read, Begin, LeftCount, ReadersOk, Loaded, LastChild;
    if step == Work(i) {
      var w := s.writers[i].stage.task;
      assert TaskOf(s, s.writers[i].op, w);
      WorkLoads(s.m, w, s.m.trees[s.root]);
    } else if step == Arrival(i) {
      ReadLoads(s.m, s.writers[i].stage.task);
    } else if step == Enter(i) {
      BeginLoads(s.writers[i].op.k, EntryFor(s.writers[i].op.k, s.writers[i].op.v), s.root);
    } else {
      OtherSteps(s, step, s', i);
    }
  }

  lemma OtherSteps(s: State, step: Step, s': State, i: nat)
    requires Next(s, step, s') && step != Work(i) && step != Arrival(i) && step != Enter(i)
    ensures FoundLoaded(s', i) == FoundLoaded(s, i)
  {
    hide MemOk, Looked, Acted, Joined, Read, Stamp, Continue, Received, Refused, Begin, LeftCount, AllSaved, Loaded;
  }

  lemma ReadLoads(m: Memory, w: Task)
    requires w.phase.Reading?
    ensures Read(m, w).1.loaded == w.loaded
  {
  }

  lemma BeginLoads(k: Key, e: Option<Entry>, root: nat)
    ensures Begin(k, e, root).loaded == 1
  {
  }

  /** Only the removal sets how much was found in memory. */
  lemma {:induction false} WorkLoads(m: Memory, w: Task, t: Tree)
    requires MemOk(m) && TaskOk(m, w, t)
    ensures w.phase.At? ==> Looked(m, w).1.loaded == w.loaded
    ensures w.phase.Back? && w.frames != [] ==> Joined(m, w).1.loaded == w.loaded
    ensures w.phase.Ready? ==>
              (Acted(m, w).1.loaded == 0 <==>
               w.loaded == 0 || (w.phase.po >= DEPTH && w.e.None? &&
                                 var last := LastChild(CellOf(m, w.phase.id).forks, w.phase.at);
                                 last.Some? && !Loaded(m, last.value.id)))
  {
    hide MemOk, New, FirstDiff, ChildAt, Whacked, Whirled, Wedged, Pulled, Reach, OnTrack, LastChild, KidsOk,
      ParentLoaded;
    if w.phase.Ready? {
      ReachIs(m, [], w.phase.id, w.phase.at);
    }
  }

  /**
   * The read of a find that arrives late spoils a delete: even with everything in memory, the delete
   * that is about to remove its key then finds the last child packed.
   */
  lemma {:induction false} LateArrivalSpoilsDelete(init: Tree, s: State, i: nat, j: nat) returns (s': State)
    requires Inv(init, s) && Busy(s, i) && j < |s.readers| && s.readers[j].job.Finding? && Awaiting(s.readers[j].job)
    requires var w := s.writers[i].stage.task;
             && w.phase.Ready? && w.phase.po >= DEPTH && w.e.None?
             && s.readers[j].job.find.id == w.phase.id
             && LastChild(CellOf(s.m, w.phase.id).forks, w.phase.at).Some?
    ensures Next(s, Receive(j), s') && PullsPacked(s', Work(i), i)
  {
    hide MemOk, Arrive, LastChild, FirstDiff, ForkAt, OnTrack, Underway, LossesOk, ChainOk, Sequential, Find,
      ParentLoaded;
    var w := s.writers[i].stage.task;
    assert TaskOf(s, s.writers[i].op, w);
    assert ReaderOk(init, s, s.readers[j]);
    var r := Received(s.m, s.readers[j].job);
    s' := ToJob(s, j, r.1).(m := r.0);
    LateArrivalUnloads(s.m, w.phase.id, w.phase.at);
  }

  /** Up to state `n`, writer `i` has removed its key from a cell whose last child was not in memory. */
  ghost predicate PulledPacked(steps: seq<Step>, states: seq<State>, n: nat, i: nat)
    requires n <= |steps| < |states|
  {
    exists j :: 0 <= j < n && PullsPacked(states[j], steps[j], i)
  }

  lemma PulledNow(steps: seq<Step>, states: seq<State>, n: nat, i: nat)
    requires n < |steps| < |states|
    ensures PulledPacked(steps, states, n + 1, i) <==>
            PulledPacked(steps, states, n, i) || PullsPacked(states[n], steps[n], i)
  {
    hide PullsPacked;
    if PullsPacked(states[n], steps[n], i) {
      assert PulledPacked(steps, states, n + 1, i);
    }
  }

  /** A removal finds its last child packed exactly when it does so in one of the steps. */
  lemma {:induction false} PulledWhen(m: Memory, root: nat, steps: seq<Step>, states: seq<State>, n: nat, i: nat)
    requires Run(m, root, steps, states) && n <= |steps|
    ensures FoundLoaded(states[n], i) == 0 <==> PulledPacked(steps, states, n, i)
  {
    if n > 0 {
      hide MemOk, PullsPacked, PulledPacked, FoundLoaded, Next, Inv, Entered, Initial;
      RunKeepsInv(m, root, steps, states, n - 1);
      assert Next(states[n - 1], steps[n - 1], states[n - 1 + 1]);
      PulledWhen(m, root, steps, states, n - 1, i);
      PullStep(m.trees[root], states[n - 1], steps[n - 1], states[n], i);
      PulledNow(steps, states, n - 1, i);
    }
  }

  /** The updates that were applied began and ended with a valid tree. */
  lemma {:induction false} StaysOk(init: Tree, ws: seq<Writer>)
    requires RootOk(init)
    ensures RootOk(Sequential(init, ws))
  {
    hide RootOk, Update;
    if ws != [] {
      StaysOk(init, ws[..|ws| - 1]);
      match ws[|ws| - 1].stage
      case Left(true, loaded) =>
        UpdatedIs(Sequential(init, ws[..|ws| - 1]), ws[|ws| - 1].op.k, ws[|ws| - 1].op.v, loaded);
      case _ =>
    }
  }

  /**
   * What writer `i` has done to the map. A failed update did nothing, a put or a delete of an absent
   * key did what it does in memory, and a delete of a present key took out just that key unless, at
   * the step at which it removed it, the last child of the key's node was not in memory.
   */
  lemma {:induction false} UpdatesAreExact(m: Memory, root: nat, steps: seq<Step>, states: seq<State>, n: nat, i: nat)
    requires Run(m, root, steps, states) && RootOk(m.trees[root]) && n <= |steps| && i < LeftCount(states[n].writers)
    ensures var ws := states[n].writers;
            var before, after := Sequential(m.trees[root], ws[..i]), Sequential(m.trees[root], ws[..i + 1]);
            var op := ws[i].op;
            && ws[i].stage.Left? && RootOk(before) && RootOk(after)
            && if !ws[i].stage.applied then after == before
               else if op.v.Some? || op.k !in Abs(before) then Abs(after) == Updated(before, op.k, op.v)
               else Abs(after) == Abs(before) - {op.k} <==> !PulledPacked(steps, states, n, i)
  {
    hide Abs, RootOk, Updated, Update, Bare, PulledPacked, Next, MemOk, ReadersOk, RootIs;
    RunKeepsInv(m, root, steps, states, n);
    var init, ws := m.trees[root], states[n].writers;
    StaysOk(init, ws[..i]);
    StaysOk(init, ws[..i + 1]);
    PulledWhen(m, root, steps, states, n, i);
    assert ws[..i + 1][..i] == ws[..i];
    var before, op := Sequential(init, ws[..i]), ws[i].op;
    if ws[i].stage.applied {
      UpdatedIs(before, op.k, op.v, ws[i].stage.loaded);
      if op.v.None? && op.k in Abs(before) {
        DeletedIff(before, op.k, ws[i].stage.loaded);
      }
    }
  }

  /** An iteration sees the tree it started at, as far as the callback lets it and reads succeed. */
  lemma IterationsSeeOneTree(m: Memory, root: nat, steps: seq<Step>, states: seq<State>, n: nat, r: Reader)
    requires Run(m, root, steps, states) && RootOk(m.trees[root]) && n <= |steps|
    requires r in states[n].readers && r.job.Iterating?
    ensures r.seen <= |states[n].writers|
    ensures var t, w := Sequential(m.trees[root], states[n].writers[..r.seen]), r.job.walk;
            var g := FindNode(t, 0, w.p);
            && RootOk(t) && SoFar(w, g)
            && (w.phase.Missing? ==> g.None?)
            && (w.phase.Ended? ==>
                  g.Some? && g.value.Node? && Walkable(TrieIter.Start(g.value, w.p)) &&
                  var all := Walk(TrieIter.Start(g.value, w.p), w.k);
                  if w.phase.stopped then w.log != [] && w.log <= all else w.log == all)
  {
    hide RootOk, MemOk, Next, FindNode, Walk, Walkable, ChainOk, RootIs, LossesOk, ListOk;
    RunKeepsInv(m, root, steps, states, n);
    assert ReaderOk(m.trees[root], states[n], r);
    StaysOk(m.trees[root], states[n].writers[..r.seen]);
    AlwaysSoFar(states[n].m, r.job.walk, Sequential(m.trees[root], states[n].writers[..r.seen]));
  }

  /** Once the index is closed it stays closed, and no update, find or iteration starts any more. */
  lemma {:induction false} ClosedForGood(m: Memory, root: nat, steps: seq<Step>, states: seq<State>, i: nat, n: nat)
    requires Run(m, root, steps, states) && i <= n <= |steps| && states[i].closed
    ensures states[n].closed && |states[n].writers| == |states[i].writers| && |states[n].readers| == |states[i].readers|
  {
    hide Next, MemOk, Entered;
    if i < n {
      ClosedForGood(m, root, steps, states, i, n - 1);
      assert Next(states[n - 1], steps[n - 1], states[n - 1 + 1]);
      ClosedStep(states[n - 1], steps[n - 1], states[n]);
    }
  }

  lemma ClosedStep(s: State, step: Step, s': State)
    requires Next(s, step, s') && s.closed
    ensures s'.closed && |s'.writers| == |s.writers| && |s'.readers| == |s.readers|
  {
    hide MemOk, Looked, Acted, Joined, Read, Stamp, Continue, Received, Refused, Begin, LeftCount, AllSaved, Loaded;
  }
}
