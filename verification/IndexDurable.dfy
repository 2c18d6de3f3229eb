/**
 * What the store holds during a run: whenever the root was put there by a writer, its reference leads
 * to all of it, so that the map of the updates so far can be opened again.
 */
module IndexDurable {
  import opened Bits
  import opened Wrappers
  import opened Trie
  import opened Store
  import opened PotArena
  import opened PotSplices
  import opened PotReads
  import opened PotTasks
  import opened IndexRuns

  /** All that a cell refers to is in the store. */
  ghost predicate HeldBy(m: Memory, store: map<Ref, Record>)
  {
    StoreOk(store) && forall id | id in m.cells && m.cells[id].ref.Some? :: Closed(m.cells[id].ref.value, store)
  }

  /** A save writes the record of its cell. */
  ghost function Written(store: map<Ref, Record>, step: Step, s': State): map<Ref, Record>
  {
    if step.Save? && CellOf(s'.m, step.id).ref.Some? then
      var ref := CellOf(s'.m, step.id).ref.value;
      store[ref := ref.record]
    else store
  }

  /** The store after the first `n` steps. */
  ghost function StoreAt(store: map<Ref, Record>, steps: seq<Step>, states: seq<State>, n: nat): map<Ref, Record>
    requires n <= |steps| < |states|
  {
    if n == 0 then store else Written(StoreAt(store, steps, states, n - 1), steps[n - 1], states[n])
  }

  lemma AllocHeld(m: Memory, c: Cell, t: Tree, store: map<Ref, Record>)
    requires HeldBy(m, store) && (c.ref.Some? ==> Closed(c.ref.value, store))
    ensures HeldBy(Alloc(m, c, t), store)
  {
  }

  lemma {:induction false} StubsHeld(m: Memory, rs: seq<RecordFork>, store: map<Ref, Record>)
    requires HeldBy(m, store) && forall f | f in rs :: ForkClosed(f, store)
    ensures HeldBy(WithStubs(m, rs), store)
  {
    hide HeldBy, Resolve, Closed;
    if rs != [] {
      var n := |rs| - 1;
      assert rs[n] in rs && ForkClosed(rs[n], store);
      StubsHeld(m, rs[..n], store);
      AllocHeld(WithStubs(m, rs[..n]), Cell([], None, Some(rs[n].ref)), Resolve(rs[n].ref), store);
    }
  }

  /** What a read brings in is stored. */
  lemma {:induction false} FilledHeld(m: Memory, id: nat, store: map<Ref, Record>)
    requires HeldBy(m, store)
    ensures HeldBy(Filled(m, id), store)
  {
    hide WithStubs, Stubs, Resolve;
    if id in m.cells && m.cells[id].ref.Some? {
      StubsHeld(m, m.cells[id].ref.value.record.forks, store);
    }
  }

  /** A new cell has no reference yet. */
  lemma {:induction false} WorkHeld(m: Memory, w: Task, t: Tree, store: map<Ref, Record>)
    requires MemOk(m) && TaskOk(m, w, t) && HeldBy(m, store)
    ensures w.phase.At? ==> HeldBy(Looked(m, w).0, store)
    ensures w.phase.Ready? ==> HeldBy(Acted(m, w).0, store)
    ensures w.phase.Back? && w.frames != [] ==> HeldBy(Joined(m, w).0, store)
  {
    hide MemOk, HeldBy, OnTrack, Meaning, Alloc, FirstDiff, ForkAt, Pulled, Whirled, Whacked, Wedged, ChildAt, Pull,
      CellOk, View, ParentLoaded;
    forall c: Cell, made | c.ref == None
      ensures HeldBy(Alloc(m, c, made), store)
    {
      AllocHeld(m, c, made, store);
    }
    if w.phase.Ready? {
      PulledIs(m, w.acc, w.phase.id, w.phase.at);
    }
  }

  /** A cell is saved after its children. */
  lemma {:induction false} StampHeld(m: Memory, id: nat, store: map<Ref, Record>)
    requires HeldBy(m, store) && Loaded(m, id) && AllSaved(m, m.cells[id].forks) && m.cells[id].ref.None?
    ensures var ref := Stamp(m, id).cells[id].ref.value;
            var store' := store[ref := ref.record];
            HeldBy(Stamp(m, id), store') && Grows(store, store')
  {
    var cs, ref := m.cells[id].forks, Stamp(m, id).cells[id].ref.value;
    forall f | f in ref.record.forks
      ensures ForkClosed(f, store)
    {
      var i :| 0 <= i < |cs| && RecordForks(m, cs)[i] == f;
      assert cs[i] in cs;
    }
    PutKeepsClosed(ref.record, store);
    assert Digest(ref.record) == ref;
    forall x | x in m.cells && m.cells[x].ref.Some?
      ensures Closed(m.cells[x].ref.value, store[ref := ref.record])
    {
      ClosedGrows(m.cells[x].ref.value, store, store[ref := ref.record]);
    }
  }

  lemma GrowsSame(store: map<Ref, Record>)
    ensures Grows(store, store)
  {
  }

  /** Every step keeps the store complete. */
  lemma {:induction false} StepHeld(init: Tree, s: State, step: Step, s': State, store: map<Ref, Record>)
    requires Inv(init, s) && Next(s, step, s') && HeldBy(s.m, store)
    ensures HeldBy(s'.m, Written(store, step, s')) && Grows(store, Written(store, step, s'))
  {
    hide MemOk, HeldBy, ChainOk, LossesOk, ReadersOk, TaskOk, Looked, Acted, Joined, Filled, Stamp, Grows, Sequential,
      Continue, Refused, Begin, LeftCount;
    GrowsSame(store);
    match step {
      case Work(i) =>
        assert TaskOf(s, s.writers[i].op, s.writers[i].stage.task);
        WorkHeld(s.m, s.writers[i].stage.task, s.m.trees[s.root], store);
      case Arrival(i) => FilledHeld(s.m, s.writers[i].stage.task.phase.child.id, store);
      case Receive(i) => ReceivedHeld(s.m, s.readers[i].job, store);
      case Save(i, id) => SaveHeld(s, step, s', store);
      case _ =>
    }
  }

  lemma ReceivedHeld(m: Memory, j: Job, store: map<Ref, Record>)
    requires HeldBy(m, store) && Awaiting(j)
    ensures HeldBy(Received(m, j).0, store)
  {
    hide HeldBy, Filled;
    match j
    case Finding(_, p) => FilledHeld(m, p.id, store);
    case Iterating(w) => FilledHeld(m, AwaitedBy(w.phase), store);
  }

  lemma SaveHeld(s: State, step: Step, s': State, store: map<Ref, Record>)
    requires Next(s, step, s') && step.Save? && HeldBy(s.m, store)
    ensures HeldBy(s'.m, Written(store, step, s')) && Grows(store, Written(store, step, s'))
  {
    hide HeldBy, Grows, RecordForks, AllSaved;
    StampHeld(s.m, step.id, store);
  }

  // ---------------------------------------------------------------- the root

  /** The root is the first one, or empty, or it has a reference. */
  ghost predicate RootSaved(s: State, first: nat)
  {
    s.root == first || (s.root in s.m.trees && s.m.trees[s.root].Nil?) || CellOf(s.m, s.root).ref.Some?
  }

  lemma {:induction false} StepSaves(init: Tree, s: State, step: Step, s': State, first: nat)
    requires Inv(init, s) && Next(s, step, s') && RootSaved(s, first)
    ensures RootSaved(s', first)
  {
    hide MemOk, ChainOk, LossesOk, ReadersOk, Sequential, Later;
    StepKeepsInv(init, s, step, s');
    if step.Leave? {
      assert TaskOf(s, s.writers[step.i].op, s.writers[step.i].stage.task);
    } else {
      RootStays(s, step, s');
      SavedLater(s, s', first);
    }
  }

  lemma SavedLater(s: State, s': State, first: nat)
    requires RootSaved(s, first) && s'.root == s.root && Later(s.m, s'.m)
    ensures RootSaved(s', first)
  {
  }

  /** Only a writer that leaves changes the root. */
  lemma RootStays(s: State, step: Step, s': State)
    requires Next(s, step, s') && !step.Leave?
    ensures s'.root == s.root
  {
    hide MemOk, Looked, Acted, Joined, Read, Stamp, Continue, Received, Refused, Begin, LeftCount, AllSaved, Loaded;
  }

  /**
   * At every moment of every run: a root that a writer has put there is empty, or has a reference
   * under which the store holds the whole tree of the updates so far.
   */
  lemma {:induction false} Durable(m: Memory, root: nat, store: map<Ref, Record>, steps: seq<Step>, states: seq<State>,
      n: nat)
    requires Run(m, root, steps, states) && HeldBy(m, store) && n <= |steps|
    ensures HeldBy(states[n].m, StoreAt(store, steps, states, n)) && RootSaved(states[n], root)
    ensures Grows(store, StoreAt(store, steps, states, n))
    ensures var s, now := states[n], Sequential(m.trees[root], states[n].writers);
            s.root != root || now != m.trees[root] ==>
              now.Nil? ||
              var ref := CellOf(s.m, s.root).ref;
              ref.Some? && Resolve(ref.value) == now && Closed(ref.value, StoreAt(store, steps, states, n))
  {
    hide Inv, Next, MemOk, HeldBy, RootSaved, Grows, Closed;
    Holds(m, root, store, steps, states, n);
    TakesEffect(m, root, steps, states, n);
    RunKeepsInv(m, root, steps, states, n);
    RealTime(m, root, steps, states, 0, n);
    SavedIs(m.trees[root], states[n], root, StoreAt(store, steps, states, n), m.trees[root]);
  }

  lemma {:induction false} Holds(m: Memory, root: nat, store: map<Ref, Record>, steps: seq<Step>, states: seq<State>,
      n: nat)
    requires Run(m, root, steps, states) && HeldBy(m, store) && n <= |steps|
    ensures HeldBy(states[n].m, StoreAt(store, steps, states, n)) && RootSaved(states[n], root)
    ensures Grows(store, StoreAt(store, steps, states, n))
  {
    hide Inv, Next, MemOk, HeldBy, Written;
    if n > 0 {
      Holds(m, root, store, steps, states, n - 1);
      RunKeepsInv(m, root, steps, states, n - 1);
      assert Next(states[n - 1], steps[n - 1], states[n - 1 + 1]);
      StepHeld(m.trees[root], states[n - 1], steps[n - 1], states[n], StoreAt(store, steps, states, n - 1));
      StepSaves(m.trees[root], states[n - 1], steps[n - 1], states[n], root);
    }
  }

  lemma SavedIs(init: Tree, s: State, first: nat, store: map<Ref, Record>, t: Tree)
    requires Inv(init, s) && RootSaved(s, first) && HeldBy(s.m, store) && s.root in s.m.trees
    requires first in s.m.trees && s.m.trees[first] == t
    ensures s.root != first || s.m.trees[s.root] != t ==>
              s.m.trees[s.root].Nil? ||
              var ref := CellOf(s.m, s.root).ref;
              ref.Some? && Resolve(ref.value) == s.m.trees[s.root] && Closed(ref.value, store)
  {
    hide ChainOk, LossesOk, ReadersOk, Closed, Resolve;
    var c := CellOf(s.m, s.root);
    if c.ref.Some? {
      PinnedIs(s.m, s.root);
    }
  }
}
