/** The trie as a finite map: what find, put, delete and size do to it. */
module TrieMap {
  import opened Bits
  import opened Wrappers
  import opened Trie
  import opened TrieLaws
  import opened TrieUpdate

  /** A root: empty, or a valid node entered at bit 0. */
  ghost predicate RootOk(t: Tree)
  {
    t.Node? ==> Valid(t, 0)
  }

  ghost function Keys(s: set<Entry>): set<Key>
  {
    set x | x in s :: x.key
  }

  ghost function EntryAt(s: set<Entry>, k: Key): Entry
    requires k in Keys(s)
  {
    var x :| x in s && x.key == k; x
  }

  ghost function MapOf(s: set<Entry>): map<Key, Value>
  {
    map k | k in Keys(s) :: EntryAt(s, k).value
  }

  /** The map that a root stands for. */
  ghost function Abs(t: Tree): map<Key, Value>
  {
    MapOf(Entries(t, 0))
  }

  ghost predicate UniqueKeys(s: set<Entry>)
  {
    forall x, y :: x in s && y in s && x.key == y.key ==> x == y
  }

  lemma RootUnique(t: Tree)
    requires RootOk(t)
    ensures UniqueKeys(Entries(t, 0))
  {
    forall x, y | x in Entries(t, 0) && y in Entries(t, 0) && x.key == y.key
      ensures x == y
    {
      KeysAreUnique(t, 0, x, y);
    }
  }

  lemma MapOfIs(s: set<Entry>)
    requires UniqueKeys(s)
    ensures forall x :: x in s <==> x.key in MapOf(s) && MapOf(s)[x.key] == x.value
    ensures |MapOf(s)| == |s|
  {
    var m := MapOf(s);
    forall x: Entry | x.key in m && m[x.key] == x.value
      ensures x in s
    {
      assert EntryAt(s, x.key) in s;
    }
    KeyCount(s);
    assert m.Keys == Keys(s);
  }

  lemma {:induction false} KeyCount(s: set<Entry>)
    requires UniqueKeys(s)
    ensures |Keys(s)| == |s|
  {
    if s != {} {
      var y :| y in s;
      KeyCount(s - {y});
      assert Keys(s) == Keys(s - {y}) + {y.key};
    }
  }

  // ---------------------------------------------------------------- find and size

  lemma {:induction false} FindInner(t: Tree, at: nat, b: nat, k: Key)
    requires Valid(t, b) && at <= b <= DEPTH && Agree(t.entry.key, k, b)
    ensures Find(t, at, k).Some? ==> Find(t, at, k).value in Entries(t, b) && Find(t, at, k).value.key == k
    ensures forall x | x in Entries(t, b) && x.key == k :: Find(t, at, k) == Some(x)
    decreases t
  {
    hide Valid, ForkOk, Splits, Agree, Entries;
    LiveForks(t, b);
    var po := FirstDiff(t.entry.key, k, at);
    DiffFrom(t.entry.key, k, at, b);
    OwnEntry(t, b);
    if po >= DEPTH {
      forall x | x in Entries(t, b) && x.key == k
        ensures x == t.entry
      {
        KeysAreUnique(t, b, x, t.entry);
      }
    } else {
      ForkAtFinds(t.forks, po);
      var c := ForkAt(t.forks, po);
      if c.None? {
        NotBelow(t, b, k, po);
      } else {
        LiveFork(t, b, c.value);
        ChildAgrees(t.entry.key, c.value, k);
        FindInner(c.value.tree, po, po + 1, k);
        OnlyBelow(t, b, k, c.value);
      }
    }
  }

  lemma {:induction false} DiffFrom(a: Key, b: Key, at: nat, n: nat)
    requires Agree(a, b, n) && at <= n <= DEPTH
    ensures var po := FirstDiff(a, b, at); if po < DEPTH then n <= po && Splits(a, b, po) else a == b
  {
    DiffSplits(a, b, at);
  }

  /** Lookup refines the map. */
  lemma FindRefines(t: Tree, k: Key)
    requires RootOk(t)
    ensures Find(t, 0, k) == if k in Abs(t) then Some(Entry(k, Abs(t)[k])) else None
  {
    RootUnique(t);
    MapOfIs(Entries(t, 0));
    if t.Node? {
      FindInner(t, 0, 0, k);
      if k in Abs(t) {
        assert Entry(k, Abs(t)[k]) in Entries(t, 0);
      }
    }
  }

  function Size(t: Tree): nat
  {
    if t.Nil? then 0 else 1 + SizeFrom(t.forks, 0)
  }

  /** The size computed from the stored sizes is the number of keys. */
  lemma SizeRefines(t: Tree)
    requires RootOk(t)
    ensures Size(t) == |Abs(t)|
  {
    RootUnique(t);
    MapOfIs(Entries(t, 0));
    if t.Node? {
      SizeIsCardinality(t, 0);
    }
  }

  // ---------------------------------------------------------------- the fork at bit 0

  lemma {:induction false} EnterAtZero(c: Tree)
    requires Valid(c, 1) && forall g | g in c.forks :: g.at != 0
    ensures Valid(c, 0) && Entries(c, 0) == Entries(c, 1)
  {
  }

  lemma {:induction false} NoForkAtZero(r: Tree, b: bool)
    requires Valid(r, 0) && forall x | x in Entries(r, 0) :: x.key[0] == b
    ensures forall g | g in r.forks :: g.at != 0
  {
    OwnEntry(r, 0);
    forall g | g in r.forks
      ensures g.at != 0
    {
      ForkEntry(r, 0, g);
    }
  }

  lemma {:induction false} ForkEntry(r: Tree, at: nat, g: Fork)
    requires Valid(r, at) && g in r.forks && g.at >= at
    ensures g.tree.Node? && g.tree.entry in Entries(r, at)
    ensures g.at < DEPTH && g.tree.entry.key[g.at] != r.entry.key[g.at]
  {
    assert g.tree.entry in ForkEntries(g);
  }

  /** The other half, below fork 0, is dropped. */
  lemma {:induction false} DropZero(t: Tree, c: Fork)
    requires Valid(t, 0) && c in t.forks && c.at == 0
    ensures Stored(Some(Node(t.entry, Wedge([], t, 0, 0))), Entries(t, 0) - Entries(c.tree, 1))
  {
    hide Wedge, Entries, Under, Valid, ForkOk, Siblings, Stored;
    LiveForks(t, 0);
    WedgeZero(t);
    var w := Wedge([], t, 0, 0);
    Pinned(t.entry, w);
    EntriesBySiblings(t, 0, c);
    ZeroApart(t, c);
    assert Under(w, 0) + {t.entry} == Entries(t, 0) - Entries(c.tree, 1);
  }

  lemma {:induction false} WedgeZero(t: Tree)
    requires Valid(t, 0)
    ensures AccOk(Wedge([], t, 0, 0), t.entry.key, DEPTH)
    ensures Under(Wedge([], t, 0, 0), 0) == Siblings(t, 0, 0)
  {
    WedgeZeroOk(t);
    hide Wedge, ForkOk, Under, Siblings, Entries;
    UnderParts(Wedge([], t, 0, 0), [], t, 0, 0);
    NothingUnder();
  }

  lemma {:induction false} NothingUnder()
    ensures Under([], 0) == {}
  {
  }

  lemma {:induction false} WedgeZeroOk(t: Tree)
    requires Valid(t, 0)
    ensures AccOk(Wedge([], t, 0, 0), t.entry.key, DEPTH)
    ensures forall f :: f in Wedge([], t, 0, 0) <==> f in t.forks && f.at != 0
  {
    hide Wedge, Under, Entries;
    LiveForks(t, 0);
    WedgeForks([], t, 0, 0);
  }

  lemma {:induction false} ZeroApart(t: Tree, c: Fork)
    requires Valid(t, 0) && c in t.forks && c.at == 0
    ensures ({t.entry} + Siblings(t, 0, 0)) !! Entries(c.tree, 1)
  {
    assert ForkEntries(c) == Entries(c.tree, 1);
    forall x | x in {t.entry} + Siblings(t, 0, 0) && x in ForkEntries(c)
      ensures false
    {
      ForkSplits(t.entry.key, c, x);
      if x in Siblings(t, 0, 0) {
        var f :| f in t.forks && f.at != 0 && x in ForkEntries(f);
        ForkSplits(t.entry.key, f, x);
      }
    }
  }

  /** The half below fork 0 is replaced by `r`. */
  lemma {:induction false} ReplaceZero(t: Tree, c: Fork, r: Tree)
    requires Valid(t, 0) && c in t.forks && c.at == 0
    requires Valid(r, 0) && forall x | x in Entries(r, 0) :: x.key[0] != t.entry.key[0]
    ensures Stored(Some(Node(t.entry, Whack([], r, -1, t, 0))), Entries(t, 0) - Entries(c.tree, 1) + Entries(r, 0))
  {
    hide Whack, Entries, Under, Valid, ForkOk, Siblings, Stored;
    LiveForks(t, 0);
    LiveForks(r, 0);
    WhackZero(t, r);
    Pinned(t.entry, Whack([], r, -1, t, 0));
    EntriesBySiblings(t, 0, c);
    ZeroApart(t, c);
    assert Under(Whack([], r, -1, t, 0), 0) + {t.entry} == Entries(t, 0) - Entries(c.tree, 1) + Entries(r, 0);
  }

  lemma {:induction false} WhackZero(t: Tree, r: Tree)
    requires Valid(t, 0) && Valid(r, 0) && forall x | x in Entries(r, 0) :: x.key[0] != t.entry.key[0]
    ensures AccOk(Whack([], r, -1, t, 0), t.entry.key, DEPTH)
    ensures Under(Whack([], r, -1, t, 0), 0) == Siblings(t, 0, 0) + Entries(r, 0)
  {
    var n := NewAt(0, r);
    var w := Whack([], r, -1, t, 0);
    WhackZeroForks(r, t);
    NoForkAtZero(r, !t.entry.key[0]);
    OwnEntry(r, 0);
    ValidLater(r, 0, 1);
    assert Splits(r.entry.key, t.entry.key, 0);
    NewAtOk(r, 0, t.entry.key);
    LiveForks(t, 0);
    assert forall f | f in w :: f == n || f in t.forks;
    EnterAtZero(r);
    assert ForkEntries(n) == Entries(r, 1);
    UnderWithZero(w, t, n);
  }

  lemma {:induction false} UnderWithZero(w: seq<Fork>, t: Tree, n: Fork)
    requires t.Node? && forall f :: f in w <==> f == n || (f in t.forks && f.at != 0)
    ensures Under(w, 0) == Siblings(t, 0, 0) + ForkEntries(n)
  {
    assert n in w;
    assert forall f | f in t.forks && f.at != 0 :: f in w;
  }

  lemma {:induction false} WhackZeroForks(r: Tree, t: Tree)
    requires Valid(r, 0) && Valid(t, 0)
    ensures Ordered(Whack([], r, -1, t, 0))
    ensures forall f :: f in Whack([], r, -1, t, 0) <==> f == NewAt(0, r) || (f in t.forks && f.at != 0)
  {
    CopyNoneBelow(r.forks, 0);
    LiveForks(t, 0);
    var one: seq<Fork> := [NewAt(0, r)];
    AppendRangeForks(one, t.forks, 1, DEPTH);
    assert AppendRange([], r.forks, -1, 0) == [];
    assert [] + one == one;
    assert Whack([], r, -1, t, 0) == AppendRange(one, t.forks, 1, DEPTH);
  }

  lemma {:induction false} CopyNoneBelow(fs: seq<Fork>, to: int)
    requires to <= 0
    ensures Copy(fs, -1, to) == []
  {
  }

  // ---------------------------------------------------------------- updates

  /** The update changes something: an absent or different entry is put, or a present key is removed. */
  ghost predicate Effective(s: set<Entry>, k: Key, e: Option<Entry>)
  {
    match e
    case Some(x) => x !in s
    case None => k in Keys(s)
  }

  ghost function After(s: set<Entry>, k: Key, e: Option<Entry>): set<Entry>
  {
    Without(s, k) + match e case Some(x) => {x} case None => {}
  }

  /** The entries on the root's side of bit 0. */
  ghost function SameSide(s: set<Entry>, bit: bool): set<Entry>
  {
    set x | x in s && x.key[0] == bit
  }

  ghost predicate Becomes(r: Option<Tree>, s: set<Entry>)
  {
    r.Some? && RootOk(r.value) && Entries(r.value, 0) == s
  }

  /** Away from bit 0, one update does to the entries what its arguments say. */
  lemma {:induction false} UpdateAside(t: Tree, k: Key, e: Option<Entry>, loaded: nat)
    requires Valid(t, 0) && !Crosses(t, 0, k) && loaded > 0
    requires e.Some? ==> e.value.key == k
    ensures var s := Entries(t, 0);
            if Effective(s, k, e) then Becomes(Update(t, k, e, loaded), After(s, k, e))
            else Update(t, k, e, loaded).None?
  {
    hide Valid, Entries, UpdateInner, Removed, Agree;
    StartAtRoot(t, k);
    var s := Entries(t, 0);
    assert All([], t, 0) == s;
    match e
    case Some(x) =>
      PutInner([], t, 0, x, loaded);
    case None =>
      RemoveInner([], t, 0, k, loaded);
      RemovedIs(t, 0, k, loaded);
      var gone := Removed(t, 0, k, loaded);
      assert s - gone == Without(s, k);
  }

  lemma {:induction false} StartAtRoot(t: Tree, k: Key)
    requires Valid(t, 0)
    ensures t.Node? && AccOk([], t.entry.key, 0) && Agree(t.entry.key, k, 0) && Under([], 0) == {}
  {
  }

  lemma {:induction false} CrossingFork(t: Tree, k: Key) returns (c: Fork)
    requires Valid(t, 0) && Crosses(t, 0, k)
    ensures c in t.forks && c.at == 0 && ForkAt(t.forks, 0) == Some(c)
    ensures Valid(c.tree, 0) && Entries(c.tree, 0) == Entries(c.tree, 1) && !Crosses(c.tree, 0, k)
    ensures FirstDiff(t.entry.key, k, 0) == 0
    ensures Entries(c.tree, 0) == SameSide(Entries(t, 0), k[0])
  {
    c :| c in t.forks && c.at == 0;
    LiveFork(t, 0, c);
    ForkAtFinds(t.forks, 0);
    EnterAtZero(c.tree);
    ZeroSide(t, c);
  }

  lemma {:induction false} ZeroForkSide(t: Tree, c: Fork, x: Entry)
    requires Valid(t, 0) && c in t.forks && c.at == 0 && x in Entries(c.tree, 1)
    ensures x.key[0] != t.entry.key[0]
  {
    LiveFork(t, 0, c);
    assert ForkEntries(c) == Entries(c.tree, 1);
    hide Entries, Valid;
    ForkSplits(t.entry.key, c, x);
  }

  lemma {:induction false} SiblingSide(t: Tree, x: Entry)
    requires Valid(t, 0) && x in Siblings(t, 0, 0)
    ensures x.key[0] == t.entry.key[0]
  {
    var f :| f in t.forks && f.at != 0 && x in ForkEntries(f);
    LiveFork(t, 0, f);
    hide Entries, Valid;
    ForkSplits(t.entry.key, f, x);
  }

  lemma {:induction false} ZeroSide(t: Tree, c: Fork)
    requires Valid(t, 0) && c in t.forks && c.at == 0
    ensures Entries(c.tree, 1) == SameSide(Entries(t, 0), !t.entry.key[0])
  {
    EntriesBySiblings(t, 0, c);
    hide Entries, Valid, Siblings;
    forall x | x in Entries(c.tree, 1)
      ensures x.key[0] != t.entry.key[0]
    {
      ZeroForkSide(t, c, x);
    }
    forall x | x in Siblings(t, 0, 0)
      ensures x.key[0] == t.entry.key[0]
    {
      SiblingSide(t, x);
    }
  }

  /** Across bit 0 an effective update does the same, but one without effect drops the whole half. */
  lemma {:induction false} UpdateAcross(t: Tree, k: Key, e: Option<Entry>, loaded: nat)
    requires Valid(t, 0) && Crosses(t, 0, k) && loaded > 0
    requires e.Some? ==> e.value.key == k
    ensures var s := Entries(t, 0);
            Becomes(Update(t, k, e, loaded),
                    if Effective(s, k, e) then After(s, k, e) else SameSide(s, t.entry.key[0]))
  {
    hide Valid, Entries, Whack, Wedge, Removed;
    var s := Entries(t, 0);
    var c := CrossingFork(t, k);
    var half := Entries(c.tree, 0);
    assert half == SameSide(s, k[0]);
    LiveFork(t, 0, c);
    UpdateAside(c.tree, k, e, loaded);
    assert Effective(half, k, e) == Effective(s, k, e);
    assert s - half == SameSide(s, t.entry.key[0]);
    var r := UpdateInner([], c.tree, 0, k, e, loaded);
    if Effective(s, k, e) && r.value.Node? {
      ReplaceZero(t, c, r.value);
      assert s - half + After(half, k, e) == After(s, k, e);
    } else {
      DropZero(t, c);
      if Effective(s, k, e) {
        NilHasNothing();
        assert s - half == After(s, k, e);
      }
    }
  }

  /** The whole of update, on a tree that is in memory. */
  lemma UpdateOutcome(t: Tree, k: Key, e: Option<Entry>, loaded: nat)
    requires RootOk(t) && loaded > 0
    requires e.Some? ==> e.value.key == k
    ensures var s, r := Entries(t, 0), Update(t, k, e, loaded);
            if Effective(s, k, e) then Becomes(r, After(s, k, e))
            else if Crosses(t, 0, k) then Becomes(r, SameSide(s, t.entry.key[0]))
            else r.None?
  {
    if t.Nil? {
      NilHasNothing();
      if e.Some? {
        assert Entries(Node(e.value, []), 0) == {e.value};
        assert Valid(Node(e.value, []), 0);
      }
    } else if Crosses(t, 0, k) {
      UpdateAcross(t, k, e, loaded);
    } else {
      UpdateAside(t, k, e, loaded);
    }
  }

  // ---------------------------------------------------------------- the theorems, on maps

  /** Index.update: the new root, or the old one when there is nothing to do. */
  function NewRoot(t: Tree, r: Option<Tree>): Tree
  {
    if r.Some? then r.value else t
  }

  /** The map a caller expects after a put (`Some`) or a delete (`None`). */
  ghost function Expected(m: map<Key, Value>, k: Key, v: Option<Value>): map<Key, Value>
  {
    match v
    case Some(x) => m[k := x]
    case None => m - {k}
  }

  function EntryFor(k: Key, v: Option<Value>): Option<Entry>
  {
    match v
    case Some(x) => Some(Entry(k, x))
    case None => None
  }

  lemma {:induction false} MapAfter(s: set<Entry>, k: Key, v: Option<Value>)
    requires UniqueKeys(s)
    ensures UniqueKeys(After(s, k, EntryFor(k, v)))
    ensures MapOf(After(s, k, EntryFor(k, v))) == Expected(MapOf(s), k, v)
  {
    hide MapOf, Keys, After, Expected, UniqueKeys;
    var a := After(s, k, EntryFor(k, v));
    MapOfIs(s);
    GraphAfter(s, MapOf(s), k, v);
    MapOfIs(a);
    SameMap(MapOf(a), Expected(MapOf(s), k, v), a);
  }

  lemma {:induction false} GraphAfter(s: set<Entry>, m: map<Key, Value>, k: Key, v: Option<Value>)
    requires forall x: Entry :: x in s <==> x.key in m && m[x.key] == x.value
    ensures UniqueKeys(After(s, k, EntryFor(k, v)))
    ensures var n := Expected(m, k, v);
            forall x: Entry :: x in After(s, k, EntryFor(k, v)) <==> x.key in n && n[x.key] == x.value
  {
  }

  lemma {:induction false} EffectiveChanges(s: set<Entry>, k: Key, v: Option<Value>)
    requires UniqueKeys(s)
    ensures Effective(s, k, EntryFor(k, v)) <==> MapOf(s) != Expected(MapOf(s), k, v)
  {
    MapOfIs(s);
    var m := MapOf(s);
    assert m.Keys == Keys(s);
    match v
    case Some(x) =>
      assert Entry(k, x) in s <==> k in m && m[k] == x;
      assert m == m[k := x] <==> k in m && m[k] == x;
    case None =>
      assert m == m - {k} <==> k !in m;
  }

  /** A map is known by its entries. */
  lemma SameMap(m: map<Key, Value>, n: map<Key, Value>, s: set<Entry>)
    requires forall x: Entry :: x in s <==> x.key in m && m[x.key] == x.value
    requires forall x: Entry :: x in s <==> x.key in n && n[x.key] == x.value
    ensures m == n
  {
    forall k | k in m
      ensures k in n && n[k] == m[k]
    {
      assert Entry(k, m[k]) in s;
    }
    forall k | k in n
      ensures k in m
    {
      assert Entry(k, n[k]) in s;
    }
  }

  /** The half of the map on the root's side of bit 0. */
  ghost function Half(m: map<Key, Value>, bit: bool): map<Key, Value>
  {
    map k | k in m && k[0] == bit :: m[k]
  }

  lemma MapSide(s: set<Entry>, bit: bool)
    requires UniqueKeys(s)
    ensures MapOf(SameSide(s, bit)) == Half(MapOf(s), bit)
  {
    MapOfIs(s);
    MapOfIs(SameSide(s, bit));
    SameMap(MapOf(SameSide(s, bit)), Half(MapOf(s), bit), SameSide(s, bit));
  }

  /**
   * Put and delete on a tree in memory. An update that changes the map is carried out exactly; one
   * that would leave it alone does leave it alone, unless its key lies across an occupied fork 0.
   */
  lemma UpdateRefines(t: Tree, k: Key, v: Option<Value>, loaded: nat)
    requires RootOk(t) && loaded > 0
    ensures var m := Abs(t);
            var r := Update(t, k, EntryFor(k, v), loaded);
            var t' := NewRoot(t, r);
            RootOk(t') &&
            Abs(t') == if m == Expected(m, k, v) && Crosses(t, 0, k) then Half(m, t.entry.key[0])
                       else Expected(m, k, v)
    ensures Update(t, k, EntryFor(k, v), loaded).None? <==>
            Abs(t) == Expected(Abs(t), k, v) && !Crosses(t, 0, k)
  {
    hide Entries, Valid, MapOf, Update, Crosses;
    var s := Entries(t, 0);
    RootUnique(t);
    MapAfter(s, k, v);
    EffectiveChanges(s, k, v);
    UpdateOutcome(t, k, EntryFor(k, v), loaded);
    if t.Node? {
      MapSide(s, t.entry.key[0]);
    }
    CrossesNode(t, k);
  }

  lemma CrossesNode(t: Tree, k: Key)
    ensures Crosses(t, 0, k) ==> t.Node?
  {
  }

  /** Exactly when an update on a tree in memory gives the expected map. */
  lemma UpdateIsExpectedIff(t: Tree, k: Key, v: Option<Value>, loaded: nat)
    requires RootOk(t) && loaded > 0
    ensures Abs(NewRoot(t, Update(t, k, EntryFor(k, v), loaded))) == Expected(Abs(t), k, v) <==>
            !(Abs(t) == Expected(Abs(t), k, v) && Crosses(t, 0, k))
  {
    UpdateRefines(t, k, v, loaded);
    if Crosses(t, 0, k) {
      var c := CrossingFork(t, k);
      var s := Entries(t, 0);
      OwnEntry(c.tree, 0);
      RootUnique(t);
      MapOfIs(s);
      assert c.tree.entry.key in Abs(t);
      assert c.tree.entry.key !in Half(Abs(t), t.entry.key[0]);
    }
  }

  function Zeros(): Key
  {
    seq(DEPTH, i => false)
  }

  function TwoHalves(v: Value): Tree
  {
    Node(Entry(Zeros(), v), [Fork(0, Node(Entry(Zeros()[0 := true], v), []), 1)])
  }

  lemma {:induction false} TwoHalvesEntries(v: Value)
    ensures var t := TwoHalves(v); Valid(t, 0) && Entries(t, 0) == {t.entry, t.forks[0].tree.entry}
  {
    var t := TwoHalves(v);
    var a, c := t.entry, t.forks[0];
    var b := c.tree.entry;
    assert Entries(c.tree, 1) == {b};
    assert ForkEntries(c) == {b};
    assert Splits(a.key, b.key, 0);
    assert Valid(c.tree, 1);
    assert ForkOk(a.key, c);
    assert c in t.forks;
  }

  lemma {:induction false} TwoHalvesOk(v: Value)
    ensures Valid(TwoHalves(v), 0)
    ensures Abs(TwoHalves(v)).Keys == {Zeros(), Zeros()[0 := true]}
  {
    TwoHalvesEntries(v);
    hide Entries, Valid;
    var t := TwoHalves(v);
    var a, b := t.entry, t.forks[0].tree.entry;
    RootUnique(t);
    MapOfIs(Entries(t, 0));
    assert Abs(t).Keys == Keys({a, b});
  }

  /** Putting the same value again can lose it. */
  lemma {:induction false} RepeatedPutLosesAnEntry(v: Value)
    ensures var t, k := TwoHalves(v), Zeros()[0 := true];
            RootOk(t) && k in Abs(t) && Abs(t)[k] == v &&
            k !in Abs(NewRoot(t, Update(t, k, EntryFor(k, Some(v)), 1)))
  {
    hide Valid, Entries, Update, MapOf;
    var t, k := TwoHalves(v), Zeros()[0 := true];
    TwoHalvesOk(v);
    FindTwoHalves(v);
    FindRefines(t, k);
    CrossesTwoHalves(v);
    UpdateRefines(t, k, Some(v), 1);
  }

  lemma {:induction false} CrossesTwoHalves(v: Value)
    ensures Crosses(TwoHalves(v), 0, Zeros()[0 := true])
  {
    assert TwoHalves(v).forks[0] in TwoHalves(v).forks;
  }

  lemma {:induction false} FindTwoHalves(v: Value)
    ensures Find(TwoHalves(v), 0, Zeros()[0 := true]) == Some(Entry(Zeros()[0 := true], v))
  {
    var t, k := TwoHalves(v), Zeros()[0 := true];
    assert FirstDiff(t.entry.key, k, 0) == 0;
    assert ForkAt(t.forks, 0) == Some(t.forks[0]);
    DiffSplits(k, k, 0);
  }
}
