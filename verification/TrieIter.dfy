/** Ordered iteration: which entries a walk emits, and in which order. */
module TrieIter {
  import opened Bits
  import opened Wrappers
  import opened Trie
  import opened TrieLaws
  import opened TrieUpdate
  import opened TrieMap

  // ---------------------------------------------------------------- distance

  /** The first `n` bits of the exclusive-or of two keys, read as a number. */
  ghost function Distance(k: Key, a: Key, n: nat): nat
    requires n <= DEPTH
  {
    if n == 0 then 0 else 2 * Distance(k, a, n - 1) + if a[n - 1] == k[n - 1] then 0 else 1
  }

  ghost function Dist(k: Key, a: Key): nat
  {
    Distance(k, a, DEPTH)
  }

  lemma {:induction false} DistanceSame(k: Key, a: Key, b: Key, n: nat)
    requires n <= DEPTH && Agree(a, b, n)
    ensures Distance(k, a, n) == Distance(k, b, n)
  {
    if n > 0 {
      DistanceSame(k, a, b, n - 1);
    }
  }

  /** Of two keys, the one that agrees with the pivot at the bit that splits them is nearer. */
  lemma {:induction false} NearerAtSplit(k: Key, a: Key, b: Key, p: nat, n: nat)
    requires Splits(a, b, p) && a[p] == k[p] && p < n <= DEPTH
    ensures Distance(k, a, n) < Distance(k, b, n)
  {
    if n == p + 1 {
      DistanceSame(k, a, b, p);
    } else {
      NearerAtSplit(k, a, b, p, n - 1);
    }
  }

  // ---------------------------------------------------------------- the walk

  ghost predicate Walkable(f: Fork)
  {
    f.tree.Node? && Valid(f.tree, f.at + 1) && f.size == |ForkEntries(f)|
  }

  /** iterateInner with a callback that never stops: the entries in the order they are emitted. */
  ghost function Walk(f: Fork, k: Key): seq<Entry>
    requires Walkable(f)
    decreases f.tree, DEPTH - f.at, 0
  {
    if f.size == 1 then [f.tree.entry]
    else
      assert f.at + 1 < DEPTH by { SomeFork(f); }
      var po := FirstDiff(f.tree.entry.key, k, f.at + 1);
      var cn := ForkAt(f.tree.forks, po);
      var between := Copy(f.tree.forks, f.at + 1, po);
      assert Walkable(NewAt(po, f.tree)) by { NewAtWalkable(f, po); }
      assert cn.Some? ==> Walkable(cn.value) && cn.value.tree < f.tree by { ForkWalkable(f, po); }
      assert forall g | g in between :: Walkable(g) && g in f.tree.forks by { BetweenWalkable(f, po); }
      (if cn.Some? then Walk(cn.value, k) else []) + Walk(NewAt(po, f.tree), k) + WalkBack(f, between, k)
  }

  /** The forks of `fs`, last first. */
  ghost function WalkBack(f: Fork, fs: seq<Fork>, k: Key): seq<Entry>
    requires f.tree.Node? && forall g | g in fs :: Walkable(g) && g in f.tree.forks
    decreases f.tree, 0, |fs|
  {
    if fs == [] then []
    else
      var g := fs[|fs| - 1];
      assert g in fs;
      Walk(g, k) + WalkBack(f, fs[..|fs| - 1], k)
  }

  lemma {:induction false} SomeFork(f: Fork)
    requires Walkable(f) && f.size != 1
    ensures f.at + 1 < DEPTH
  {
    if forall g | g in f.tree.forks :: g.at < f.at + 1 {
      NoLiveFork(f.tree, f.at + 1);
    } else {
      LiveForks(f.tree, f.at + 1);
    }
  }

  lemma {:induction false} NewAtWalkable(f: Fork, po: nat)
    requires Walkable(f) && f.at <= po
    ensures Walkable(NewAt(po, f.tree))
  {
    hide Valid, Entries, SizeFrom;
    ValidLater(f.tree, f.at + 1, po + 1);
    SizeIsCardinality(f.tree, po + 1);
  }

  lemma {:induction false} LiveWalkable(f: Fork, g: Fork)
    requires Walkable(f) && g in f.tree.forks && g.at > f.at
    ensures Walkable(g) && g.tree < f.tree
  {
    LiveFork(f.tree, f.at + 1, g);
  }

  lemma {:induction false} ForkWalkable(f: Fork, po: nat)
    requires Walkable(f) && f.at < po
    ensures var cn := ForkAt(f.tree.forks, po);
            cn.Some? ==> Walkable(cn.value) && cn.value in f.tree.forks && cn.value.at == po && cn.value.tree < f.tree
  {
    LiveForks(f.tree, f.at + 1);
    ForkAtFinds(f.tree.forks, po);
    if ForkAt(f.tree.forks, po).Some? {
      LiveWalkable(f, ForkAt(f.tree.forks, po).value);
    }
  }

  lemma {:induction false} BetweenWalkable(f: Fork, po: nat)
    requires Walkable(f)
    ensures forall g | g in Copy(f.tree.forks, f.at + 1, po) :: Walkable(g) && g in f.tree.forks
  {
    LiveForks(f.tree, f.at + 1);
    CopyForks(f.tree.forks, f.at + 1, po);
    forall g | g in Copy(f.tree.forks, f.at + 1, po)
      ensures Walkable(g)
    {
      LiveWalkable(f, g);
    }
  }

  // ---------------------------------------------------------------- order

  ghost predicate Ascending(w: seq<Entry>, k: Key)
  {
    forall i, j :: 0 <= i < j < |w| ==> Dist(k, w[i].key) < Dist(k, w[j].key)
  }

  ghost predicate Before(a: set<Entry>, b: set<Entry>, k: Key)
  {
    forall x, y :: x in a && y in b ==> Dist(k, x.key) < Dist(k, y.key)
  }

  ghost predicate Emits(w: seq<Entry>, s: set<Entry>, k: Key)
  {
    Ascending(w, k) && forall x :: x in w <==> x in s
  }

  lemma {:induction false} EmitsJoin(v: seq<Entry>, w: seq<Entry>, a: set<Entry>, b: set<Entry>, k: Key)
    requires Emits(v, a, k) && Emits(w, b, k) && Before(a, b, k)
    ensures Emits(v + w, a + b, k)
  {
    var u: seq<Entry> := v + w;
    forall i, j | 0 <= i < j < |u|
      ensures Dist(k, u[i].key) < Dist(k, u[j].key)
    {
      if i < |v| && j >= |v| {
        assert v[i] in a && w[j - |v|] in b;
      }
    }
  }

  /** Entries that keep the pivot's bit at `p` come before those that do not. */
  lemma {:induction false} BeforeAtBit(key: Key, a: set<Entry>, b: set<Entry>, k: Key, p: nat)
    requires p < DEPTH
    requires forall x | x in a :: Agree(key, x.key, p) && x.key[p] == k[p]
    requires forall y | y in b :: Agree(key, y.key, p) && y.key[p] != k[p]
    ensures Before(a, b, k)
  {
    forall x, y | x in a && y in b
      ensures Dist(k, x.key) < Dist(k, y.key)
    {
      assert Splits(x.key, y.key, p);
      NearerAtSplit(k, x.key, y.key, p, DEPTH);
    }
  }

  lemma {:induction false} BelowFork(t: Tree, at: nat, g: Fork)
    requires Valid(t, at) && g in t.forks && g.at >= at
    ensures forall y | y in ForkEntries(g) :: Splits(t.entry.key, y.key, g.at)
  {
    LiveFork(t, at, g);
    forall y | y in ForkEntries(g)
      ensures Splits(t.entry.key, y.key, g.at)
    {
      ForkSplits(t.entry.key, g, y);
    }
  }

  lemma {:induction false} InView(t: Tree, at: nat)
    requires Valid(t, at)
    ensures forall y | y in Entries(t, at) :: Agree(t.entry.key, y.key, at)
  {
    forall y | y in Entries(t, at)
      ensures Agree(t.entry.key, y.key, at)
    {
      EntriesAgree(t, at, y);
    }
  }

  /** The pivot agrees with the node from the bit after its fork up to `po`. */
  ghost predicate Follows(f: Fork, k: Key, po: nat)
  {
    f.tree.Node? && forall i :: f.at < i < po && i < DEPTH ==> f.tree.entry.key[i] == k[i]
  }

  /** The forks before the pivot's, last first: `done` holds what was emitted before them. */
  lemma {:induction false} BackEmits(f: Fork, fs: seq<Fork>, k: Key, po: nat)
    requires Walkable(f) && Ordered(fs) && f.at < po <= DEPTH && Follows(f, k, po)
    requires forall g | g in fs :: Walkable(g) && g in f.tree.forks && f.at < g.at < po
    requires forall g | g in fs :: Emits(Walk(g, k), ForkEntries(g), k)
    ensures Emits(WalkBack(f, fs, k), Under(fs, 0), k)
  {
    hide Valid, ForkOk, Entries, Emits, Walk, ForkEntries, Under, Follows;
    if fs == [] {
      EmitsNothing(k);
      UnderNothing(0);
    } else {
      var n := |fs| - 1;
      var g := fs[n];
      assert fs == fs[..n] + [g];
      BackEmits(f, fs[..n], k, po);
      UnderSnoc(fs[..n], g, 0);
      BackBefore(f, fs[..n], g, k, po);
      EmitsJoin(Walk(g, k), WalkBack(f, fs[..n], k), ForkEntries(g), Under(fs[..n], 0), k);
      assert ForkEntries(g) + Under(fs[..n], 0) == Under(fs, 0);
    }
  }

  lemma {:induction false} EmitsNothing(k: Key)
    ensures Emits([], {}, k)
  {
  }

  lemma {:induction false} BackBefore(f: Fork, fs: seq<Fork>, g: Fork, k: Key, po: nat)
    requires Walkable(f) && Follows(f, k, po)
    requires forall h | h in fs :: h in f.tree.forks && f.at < h.at < g.at
    requires g in f.tree.forks && f.at < g.at < po <= DEPTH
    ensures Before(ForkEntries(g), Under(fs, 0), k)
  {
    forall x, y | x in ForkEntries(g) && y in Under(fs, 0)
      ensures Dist(k, x.key) < Dist(k, y.key)
    {
      var h :| h in fs && y in ForkEntries(h);
      BelowFork(f.tree, f.at + 1, g);
      BelowFork(f.tree, f.at + 1, h);
      assert Splits(x.key, y.key, h.at);
      NearerAtSplit(k, x.key, y.key, h.at, DEPTH);
    }
  }

  /** The entries in view, split by the pivot: below its fork, this node and later forks, earlier forks. */
  ghost function AtPivot(f: Fork, po: nat): set<Entry>
    requires f.tree.Node?
  {
    var cn := ForkAt(f.tree.forks, po);
    if cn.Some? then ForkEntries(cn.value) else {}
  }

  ghost function Earlier(f: Fork, po: nat): set<Entry>
    requires f.tree.Node?
  {
    Under(Copy(f.tree.forks, f.at + 1, po), 0)
  }

  lemma {:induction false} ViewParts(f: Fork, po: nat)
    requires Walkable(f) && f.at < po
    ensures ForkEntries(f) == AtPivot(f, po) + Entries(f.tree, po + 1) + Earlier(f, po)
  {
    hide Valid, Entries, Under, ForkAt, Copy;
    LiveForks(f.tree, f.at + 1);
    ForkAtFinds(f.tree.forks, po);
    CopyForks(f.tree.forks, f.at + 1, po);
    ViewSplit(f.tree, f.at + 1, po, Copy(f.tree.forks, f.at + 1, po));
  }

  lemma {:induction false} ViewSplit(t: Tree, at: nat, po: nat, between: seq<Fork>)
    requires t.Node? && at <= po
    requires forall g :: g in between <==> g in t.forks && at <= g.at < po
    requires forall g | g in t.forks && g.at == po :: ForkAt(t.forks, po) == Some(g)
    requires ForkAt(t.forks, po).Some? ==> ForkAt(t.forks, po).value in t.forks && ForkAt(t.forks, po).value.at == po
    ensures Entries(t, at) ==
            (if ForkAt(t.forks, po).Some? then ForkEntries(ForkAt(t.forks, po).value) else {}) +
            Entries(t, po + 1) + Under(between, 0)
  {
    hide ForkEntries, ForkAt;
    EntriesAre(t, at);
    EntriesAre(t, po + 1);
    assert forall g | g in t.forks && at <= g.at < po :: g in between;
    assert forall g | g in between :: g in t.forks && at <= g.at;
  }

  lemma {:induction false} EntriesAre(t: Tree, at: nat)
    requires t.Node?
    ensures forall x :: x in Entries(t, at) <==> x == t.entry || exists f ::
            f in t.forks && f.at >= at &&
            x in ForkEntries(f)
  {
  }

  lemma {:induction false} PivotFirst(f: Fork, k: Key, po: nat)
    requires Walkable(f) && f.at < po == FirstDiff(f.tree.entry.key, k, f.at + 1)
    ensures Before(AtPivot(f, po), Entries(f.tree, po + 1), k)
  {
    ForkWalkable(f, po);
    var cn := ForkAt(f.tree.forks, po);
    if cn.Some? {
      LiveForks(f.tree, f.at + 1);
      ValidLater(f.tree, f.at + 1, po + 1);
      InView(f.tree, po + 1);
      BelowFork(f.tree, f.at + 1, cn.value);
      BeforeAtBit(f.tree.entry.key, AtPivot(f, po), Entries(f.tree, po + 1), k, po);
    }
  }

  lemma {:induction false} EarlierLast(f: Fork, k: Key, po: nat)
    requires Walkable(f) && f.at < po == FirstDiff(f.tree.entry.key, k, f.at + 1) && po <= DEPTH
    ensures Before(AtPivot(f, po) + Entries(f.tree, po + 1), Earlier(f, po), k)
  {
    hide Valid, ForkOk, Entries, FirstDiff;
    LiveForks(f.tree, f.at + 1);
    CopyForks(f.tree.forks, f.at + 1, po);
    LateEntries(f, po);
    forall x, y | x in AtPivot(f, po) + Entries(f.tree, po + 1) && y in Earlier(f, po)
      ensures Dist(k, x.key) < Dist(k, y.key)
    {
      var h :| h in Copy(f.tree.forks, f.at + 1, po) && y in ForkEntries(h);
      BelowFork(f.tree, f.at + 1, h);
      SplitsLate(f.tree.entry.key, x.key, y.key, h.at, po);
      NearerAtSplit(k, x.key, y.key, h.at, DEPTH);
    }
  }

  lemma {:induction false} SplitsLate(key: Key, a: Key, b: Key, p: nat, po: nat)
    requires Agree(key, a, po) && Splits(key, b, p) && p < po
    ensures Splits(a, b, p) && a[p] == key[p]
  {
  }

  lemma {:induction false} LateEntries(f: Fork, po: nat)
    requires Walkable(f) && f.at < po <= DEPTH
    ensures forall x | x in AtPivot(f, po) + Entries(f.tree, po + 1) :: Agree(f.tree.entry.key, x.key, po)
  {
    hide Valid, ForkOk, Entries;
    ForkWalkable(f, po);
    ValidLater(f.tree, f.at + 1, po + 1);
    InView(f.tree, po + 1);
    var cn := ForkAt(f.tree.forks, po);
    if cn.Some? {
      BelowFork(f.tree, f.at + 1, cn.value);
    }
  }

  lemma {:induction false} OneEntry(f: Fork, k: Key)
    requires Walkable(f) && f.size == 1
    ensures Emits([f.tree.entry], ForkEntries(f), k)
  {
    OwnEntry(f.tree, f.at + 1);
    var s := ForkEntries(f);
    assert |s - {f.tree.entry}| == 0;
  }

  /** The walk emits each entry in view once, in strictly ascending distance from the pivot. */
  lemma {:induction false} WalkEmits(f: Fork, k: Key)
    requires Walkable(f)
    ensures Emits(Walk(f, k), ForkEntries(f), k)
    decreases f.tree, DEPTH - f.at
  {
    hide Valid, ForkOk, Entries, Under, Emits, WalkBack, Copy;
    if f.size == 1 {
      OneEntry(f, k);
    } else {
      SomeFork(f);
      var t := f.tree;
      LiveForks(t, f.at + 1);
      var po := FirstDiff(t.entry.key, k, f.at + 1);
      var cn := ForkAt(t.forks, po);
      var between := Copy(t.forks, f.at + 1, po);
      NewAtWalkable(f, po);
      ForkWalkable(f, po);
      BetweenWalkable(f, po);
      CopyForks(t.forks, f.at + 1, po);
      WalkEmits(NewAt(po, t), k);
      if cn.Some? { WalkEmits(cn.value, k); }
      forall g | g in between
        ensures Emits(Walk(g, k), ForkEntries(g), k)
      {
        WalkEmits(g, k);
      }
      BackEmits(f, between, k, po);
      WalkParts(f, k);
    }
  }

  lemma {:induction false} WalkParts(f: Fork, k: Key)
    requires Walkable(f) && f.size != 1
    requires var po := FirstDiff(f.tree.entry.key, k, f.at + 1);
             var cn := ForkAt(f.tree.forks, po);
             var between := Copy(f.tree.forks, f.at + 1, po);
             f.at < po && Walkable(NewAt(po, f.tree)) && (cn.Some? ==> Walkable(cn.value)) &&
             (forall g | g in between :: Walkable(g) && g in f.tree.forks) &&
             Emits(Walk(NewAt(po, f.tree), k), Entries(f.tree, po + 1), k) &&
             (cn.Some? ==> Emits(Walk(cn.value, k), ForkEntries(cn.value), k)) &&
             Emits(WalkBack(f, between, k), Under(between, 0), k)
    ensures Emits(Walk(f, k), ForkEntries(f), k)
  {
    hide Valid, Entries, Under, Emits, Ascending, Before, WalkBack, ForkOk;
    var po := FirstDiff(f.tree.entry.key, k, f.at + 1);
    var cn := ForkAt(f.tree.forks, po);
    var between := Copy(f.tree.forks, f.at + 1, po);
    var first := if cn.Some? then Walk(cn.value, k) else [];
    var own := Walk(NewAt(po, f.tree), k);
    EmitsNothing(k);
    PivotFirst(f, k, po);
    EmitsJoin(first, own, AtPivot(f, po), Entries(f.tree, po + 1), k);
    EarlierLast(f, k, po);
    EmitsJoin(first + own, WalkBack(f, between, k), AtPivot(f, po) + Entries(f.tree, po + 1), Earlier(f, po), k);
    ViewParts(f, po);
  }

  // ---------------------------------------------------------------- prefixes

  /** findNode: the node where the search for prefix `p` ends; `None` is the not-found error. */
  function FindNode(t: Tree, at: nat, p: seq<bool>): Option<Tree>
    decreases t
  {
    if t.Nil? then None
    else
      var po := FirstDiff(t.entry.key, p, at);
      if po < DEPTH && po < |p| then
        var c := ForkAt(t.forks, po);
        ForkAtIn(t.forks, po);
        if c.None? then None else FindNode(c.value.tree, po, p)
      else Some(t)
  }

  ghost predicate HasPrefix(k: Key, p: seq<bool>)
  {
    forall i :: 0 <= i < |p| && i < DEPTH ==> k[i] == p[i]
  }

  ghost predicate AgreesWith(k: Key, p: seq<bool>, n: nat)
  {
    forall i :: 0 <= i < n && i < |p| && i < DEPTH ==> k[i] == p[i]
  }

  ghost function Sharing(s: set<Entry>, k: Key, n: nat): set<Entry>
  {
    set x | x in s && Agree(k, x.key, n)
  }

  ghost function WithPrefix(s: set<Entry>, p: seq<bool>): set<Entry>
  {
    set x | x in s && HasPrefix(x.key, p)
  }

  /** From bit `n` on, a node's view is the part that shares `n` bits with its key. */
  lemma {:induction false} ViewIsSharing(t: Tree, at: nat, n: nat)
    requires Valid(t, at) && at <= n
    ensures Entries(t, n) == Sharing(Entries(t, at), t.entry.key, n)
  {
    EntriesAre(t, at);
    EntriesAre(t, n);
    ValidLater(t, at, n);
    InView(t, n);
    forall x | x in Entries(t, at) && Agree(t.entry.key, x.key, n)
      ensures x in Entries(t, n)
    {
      if x != t.entry {
        var f := UnderSplits(t, at, x);
      }
    }
  }

  lemma {:induction false} ChildSharing(t: Tree, at: nat, c: Fork, k: Key, n: nat)
    requires Valid(t, at) && c in t.forks && c.at >= at && c.at < n && Splits(t.entry.key, k, c.at)
    ensures Sharing(Entries(t, at), k, n) == Sharing(Entries(c.tree, c.at + 1), k, n)
  {
    LiveFork(t, at, c);
    EntriesAre(t, at);
    assert ForkEntries(c) == Entries(c.tree, c.at + 1);
    forall x | x in Entries(t, at) && Agree(k, x.key, n)
      ensures x in ForkEntries(c)
    {
      assert Splits(t.entry.key, x.key, c.at);
      var f := UnderSplits(t, at, x);
      SplitsOnce(t.entry.key, x.key, f.at, c.at);
      SameFork(t.forks, f, c);
    }
  }

  /** The located node, the bit where the search entered it, and the keys it stands for. */
  lemma {:induction false} FindNodeSharing(t: Tree, at: nat, b: nat, p: seq<bool>, n: nat) returns (mat: nat)
    requires Valid(t, b) && at <= b <= DEPTH && b <= |p| && AgreesWith(t.entry.key, p, b) && n >= |p|
    ensures Located(t, b, p, n, FindNode(t, at, p), mat)
    decreases t
  {
    hide Valid, ForkOk, Entries, Sharing, Located;
    LiveForks(t, b);
    mat := b;
    var key := t.entry.key;
    var po := FirstDiff(key, p, at);
    if po < DEPTH && po < |p| {
      assert po >= b;
      ForkAtFinds(t.forks, po);
      var c := ForkAt(t.forks, po);
      if c.None? {
        NoPrefix(t, b, p, po);
        LocatedNowhere(t, b, p, n, mat);
      } else {
        LiveFork(t, b, c.value);
        mat := FindNodeSharing(c.value.tree, po, po + 1, p, n);
        LocatedBelow(t, b, p, n, c.value, FindNode(c.value.tree, po, p), mat);
      }
    } else {
      ViewIsSharing(t, b, n);
      LocatedHere(t, b, p, n);
    }
  }

  /** What is known of the node `m` that was located from `t`, entered at bit `mat`. */
  ghost predicate Located(t: Tree, b: nat, p: seq<bool>, n: nat, m: Option<Tree>, mat: nat)
    requires t.Node?
  {
    if m.None? then forall x | x in Entries(t, b) :: !HasPrefix(x.key, p)
    else m.value.Node? && mat <= |p| && Valid(m.value, mat) && HasPrefix(m.value.entry.key, p) &&
         Agree(t.entry.key, m.value.entry.key, b) &&
         Entries(m.value, n) == Sharing(Entries(t, b), m.value.entry.key, n)
  }

  lemma LocatedNowhere(t: Tree, b: nat, p: seq<bool>, n: nat, mat: nat)
    requires t.Node? && forall x | x in Entries(t, b) :: !HasPrefix(x.key, p)
    ensures Located(t, b, p, n, None, mat)
  {
  }

  lemma LocatedHere(t: Tree, b: nat, p: seq<bool>, n: nat)
    requires t.Node? && Valid(t, b) && b <= |p| && HasPrefix(t.entry.key, p)
    requires Entries(t, n) == Sharing(Entries(t, b), t.entry.key, n)
    ensures Located(t, b, p, n, Some(t), b)
  {
    hide Valid, Entries;
  }

  lemma {:induction false} LocatedBelow(t: Tree, b: nat, p: seq<bool>, n: nat, c: Fork, m: Option<Tree>, mat: nat)
    requires t.Node? && c.tree.Node?
    requires Valid(t, b) && c in t.forks && c.at >= b && c.at < DEPTH && c.at < |p| <= n
    requires AgreesWith(t.entry.key, p, c.at) && t.entry.key[c.at] != p[c.at]
    requires Valid(c.tree, c.at + 1) && Splits(t.entry.key, c.tree.entry.key, c.at)
    requires Located(c.tree, c.at + 1, p, n, m, mat)
    ensures Located(t, b, p, n, m, mat)
  {
    hide Valid, ForkOk, Entries, Sharing;
    PrefixBelow(t, b, p, c);
    if m.Some? {
      assert Splits(t.entry.key, m.value.entry.key, c.at);
      ChildSharing(t, b, c, m.value.entry.key, n);
    }
  }

  lemma {:induction false} NoPrefix(t: Tree, at: nat, p: seq<bool>, po: nat)
    requires Valid(t, at) && po < DEPTH && po < |p| && AgreesWith(t.entry.key, p, po) && t.entry.key[po] != p[po]
    requires forall f | f in t.forks :: f.at != po
    ensures forall x | x in Entries(t, at) :: !HasPrefix(x.key, p)
  {
    forall x | x in Entries(t, at)
      ensures !HasPrefix(x.key, p)
    {
      if x != t.entry {
        var f := UnderSplits(t, at, x);
      }
    }
  }

  lemma {:induction false} PrefixBelow(t: Tree, at: nat, p: seq<bool>, c: Fork)
    requires Valid(t, at) && c in t.forks && c.at >= at
    requires c.at < DEPTH && c.at < |p| && AgreesWith(t.entry.key, p, c.at) && t.entry.key[c.at] != p[c.at]
    ensures forall x | x in Entries(t, at) && HasPrefix(x.key, p) :: x in Entries(c.tree, c.at + 1)
  {
    assert ForkEntries(c) == Entries(c.tree, c.at + 1);
    forall x | x in Entries(t, at) && HasPrefix(x.key, p)
      ensures x in Entries(c.tree, c.at + 1)
    {
      var f := UnderSplits(t, at, x);
      assert Splits(t.entry.key, x.key, c.at);
      SplitsOnce(t.entry.key, x.key, f.at, c.at);
      SameFork(t.forks, f, c);
    }
  }

  /** Where iterate starts: the located node, entered behind the prefix. */
  function Start(m: Tree, p: seq<bool>): Fork
    requires m.Node?
  {
    NewAt(|p|, m)
  }

  /**
   * iterate with prefix `p` and a full-length pivot `k` emits, nearest first and once each, the
   * entries that share one bit more than the prefix with the located node.
   */
  lemma {:induction false} IterateEmits(t: Tree, p: seq<bool>, k: Key)
    requires Valid(t, 0)
    ensures var m := FindNode(t, 0, p);
            if m.None? then WithPrefix(Entries(t, 0), p) == {}
            else m.value.Node? && HasPrefix(m.value.entry.key, p) && Walkable(Start(m.value, p)) &&
                 Emits(Walk(Start(m.value, p), k), Sharing(Entries(t, 0), m.value.entry.key, |p| + 1), k)
  {
    hide Valid, Entries, Sharing, Emits, Walk, ForkEntries, SizeFrom;
    LiveForks(t, 0);
    var mat := FindNodeSharing(t, 0, 0, p, |p| + 1);
    var m := FindNode(t, 0, p);
    if m.Some? {
      StartWalkable(m.value, mat, p);
      WalkEmits(Start(m.value, p), k);
    }
  }

  lemma {:induction false} StartWalkable(m: Tree, at: nat, p: seq<bool>)
    requires Valid(m, at) && at <= |p|
    ensures m.Node? && Walkable(Start(m, p)) && ForkEntries(Start(m, p)) == Entries(m, |p| + 1)
  {
    hide Valid, Entries, SizeFrom;
    LiveForks(m, at);
    ValidLater(m, at, |p| + 1);
    SizeIsCardinality(m, |p| + 1);
  }

  /** Iteration covers every key with the prefix exactly when the located node has no fork right behind it. */
  lemma {:induction false} IterateCoversPrefixIff(t: Tree, p: seq<bool>, k: Key)
    requires Valid(t, 0) && FindNode(t, 0, p).Some?
    ensures var m := FindNode(t, 0, p).value;
            m.Node? && Walkable(Start(m, p)) &&
            (Emits(Walk(Start(m, p), k), WithPrefix(Entries(t, 0), p), k) <==> ForkAt(m.forks, |p|).None?)
  {
    hide Valid, Entries, Sharing, Walk, ForkEntries, SizeFrom, Ascending;
    LiveForks(t, 0);
    IterateEmits(t, p, k);
    var mat := FindNodeSharing(t, 0, 0, p, |p|);
    var m := FindNode(t, 0, p).value;
    PrefixIsSharing(Entries(t, 0), m.entry.key, p);
    var mat' := FindNodeSharing(t, 0, 0, p, |p| + 1);
    NextViewIff(m, mat, |p|);
    var w := Walk(Start(m, p), k);
    if Emits(w, Entries(m, |p|), k) {
      assert forall x :: x in Entries(m, |p|) <==> x in Entries(m, |p| + 1);
      assert Entries(m, |p|) == Entries(m, |p| + 1);
    }
  }

  /** With the empty prefix an iteration from the root misses all keys across bit 0. */
  lemma {:induction false} IterateMissesAnEntry(v: Value, k: Key)
    ensures var t := TwoHalves(v);
            var missed := Entry(Zeros()[0 := true], v);
            && Valid(t, 0) && FindNode(t, 0, []) == Some(t) && Walkable(Start(t, []))
            && missed in Entries(t, 0) && HasPrefix(missed.key, []) && missed !in Walk(Start(t, []), k)
  {
    hide Valid, Walk, Walkable, Entries;
    var t := TwoHalves(v);
    TwoHalvesEntries(v);
    IterateEmits(t, [], k);
    assert Zeros()[0] != Zeros()[0 := true][0];
  }

  lemma {:induction false} PrefixIsSharing(s: set<Entry>, key: Key, p: seq<bool>)
    requires HasPrefix(key, p)
    ensures WithPrefix(s, p) == Sharing(s, key, |p|)
  {
  }

  lemma {:induction false} NextViewIff(m: Tree, at: nat, n: nat)
    requires Valid(m, at) && at <= n
    ensures Entries(m, n) == Entries(m, n + 1) <==> ForkAt(m.forks, n).None?
  {
    LiveForks(m, at);
    ForkAtFinds(m.forks, n);
    ValidLater(m, at, n);
    ValidLater(m, at, n + 1);
    EntriesAre(m, n);
    EntriesAre(m, n + 1);
    var f := ForkAt(m.forks, n);
    if f.Some? {
      ForkEntry(m, n, f.value);
      InView(m, n + 1);
    }
  }

  // ---------------------------------------------------------------- stopping early

  /** Offers the entries in turn to a callback that sees the log so far, until it answers true. */
  function Emit(w: seq<Entry>, log: seq<Entry>, stop: seq<Entry> -> bool): (seq<Entry>, bool)
  {
    if w == [] then (log, false)
    else if stop(log + [w[0]]) then (log + [w[0]], true)
    else Emit(w[1..], log + [w[0]], stop)
  }

  lemma {:induction false} EmitJoin(v: seq<Entry>, w: seq<Entry>, log: seq<Entry>, stop: seq<Entry> -> bool)
    ensures var r := Emit(v, log, stop);
            Emit(v + w, log, stop) == if r.1 then r else Emit(w, r.0, stop)
  {
    if v == [] {
      assert v + w == w;
    } else {
      assert (v + w)[1..] == v[1..] + w;
      EmitJoin(v[1..], w, log + [v[0]], stop);
    }
  }

  /** What is emitted is the walk up to and including the first entry at which the callback stops. */
  lemma {:induction false} EmitIsPrefix(w: seq<Entry>, log: seq<Entry>, stop: seq<Entry> -> bool)
    ensures var (out, stopped) := Emit(w, log, stop);
            |log| <= |out| <= |log| + |w| && out == log + w[..|out| - |log|] &&
            (forall i :: |log| < i < |out| ==> !stop(out[..i])) &&
            if stopped then |log| < |out| && stop(out) else out == log + w && (|log| < |out| ==> !stop(out))
  {
    if w != [] && !stop(log + [w[0]]) {
      EmitIsPrefix(w[1..], log + [w[0]], stop);
      var (out, stopped) := Emit(w, log, stop);
      assert w == [w[0]] + w[1..];
      assert out[..|log| + 1] == log + [w[0]];
    }
  }

  ghost function WalkOr(f: Fork, k: Key): seq<Entry>
    requires f.tree.Node? ==> Walkable(f)
  {
    if f.tree.Nil? then [] else Walk(f, k)
  }

  /** The walks of a list of forks, last first. */
  ghost function BackList(fs: seq<Fork>, k: Key): seq<Entry>
    requires forall g | g in fs :: g.tree.Node? ==> Walkable(g)
  {
    if fs == [] then []
    else
      var g := fs[|fs| - 1];
      assert g in fs;
      WalkOr(g, k) + BackList(fs[..|fs| - 1], k)
  }

  lemma {:induction false} WalkBackIsList(f: Fork, fs: seq<Fork>, k: Key)
    requires f.tree.Node? && forall g | g in fs :: Walkable(g) && g in f.tree.forks
    ensures WalkBack(f, fs, k) == BackList(fs, k)
  {
    if fs != [] {
      assert fs[|fs| - 1] in fs;
      WalkBackIsList(f, fs[..|fs| - 1], k);
    }
  }

  /** The list of forks that iterateInner goes through, from its end. */
  ghost function ForkList(f: Fork, k: Key): seq<Fork>
    requires f.tree.Node?
  {
    var po := FirstDiff(f.tree.entry.key, k, f.at + 1);
    var cn := ForkAt(f.tree.forks, po);
    Copy(f.tree.forks, f.at + 1, po) + [NewAt(po, f.tree), if cn.Some? then cn.value else Fork(po, Nil, 0)]
  }

  ghost predicate Smaller(g: Fork, f: Fork)
  {
    g.tree < f.tree || (g.tree == f.tree && g.at > f.at && f.at < DEPTH)
  }

  lemma {:induction false} WalkIsList(f: Fork, k: Key)
    requires Walkable(f) && f.size != 1
    ensures forall g | g in ForkList(f, k) :: (g.tree.Node? ==> Walkable(g)) && (g.tree.Nil? || Smaller(g, f))
    ensures Walk(f, k) == BackList(ForkList(f, k), k)
  {
    hide Valid, Entries, BackList, ForkEntries, SizeFrom;
    SomeFork(f);
    var po := FirstDiff(f.tree.entry.key, k, f.at + 1);
    NewAtWalkable(f, po);
    ForkWalkable(f, po);
    BetweenWalkable(f, po);
    var between := Copy(f.tree.forks, f.at + 1, po);
    WalkBackIsList(f, between, k);
    var cn := ForkAt(f.tree.forks, po);
    BackTwo(between, NewAt(po, f.tree), if cn.Some? then cn.value else Fork(po, Nil, 0), k);
  }

  lemma {:induction false} BackTwo(fs: seq<Fork>, g: Fork, h: Fork, k: Key)
    requires forall f | f in fs :: f.tree.Node? ==> Walkable(f)
    requires (g.tree.Node? ==> Walkable(g)) && (h.tree.Node? ==> Walkable(h))
    ensures BackList(fs + [g, h], k) == WalkOr(h, k) + WalkOr(g, k) + BackList(fs, k)
  {
    var l := fs + [g, h];
    assert l[..|l| - 1] == fs + [g];
    assert (fs + [g])[..|fs|] == fs;
  }

  lemma {:induction false} BackLast(fs: seq<Fork>, i: nat, k: Key)
    requires i < |fs| && forall g | g in fs :: g.tree.Node? ==> Walkable(g)
    ensures BackList(fs[..i + 1], k) == WalkOr(fs[i], k) + BackList(fs[..i], k)
  {
    assert fs[..i + 1][..i] == fs[..i];
  }
}
