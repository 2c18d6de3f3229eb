/**
 * Removal from a tree that was reloaded. A node loaded by reference looks empty until it is
 * unpacked, and removal looks below the matched node without unpacking.
 */
module TrieReload {
  import opened Bits
  import opened Wrappers
  import opened Trie
  import opened TrieLaws
  import opened TrieUpdate
  import opened TrieMap

  /** The node whose key is `k`, and the bit where the search enters it. */
  function Match(t: Tree, at: nat, k: Key): Option<(Tree, nat)>
    decreases t
  {
    if t.Nil? then None
    else
      var po := FirstDiff(t.entry.key, k, at);
      if po >= DEPTH then Some((t, at))
      else
        var c := ForkAt(t.forks, po);
        ForkAtIn(t.forks, po);
        if c.None? then None else Match(c.value.tree, po + 1, k)
  }

  ghost predicate HasLiveFork(m: (Tree, nat))
  {
    m.0.Node? && exists f :: f in m.0.forks && f.at >= m.1
  }

  /**
   * Nothing hangs below the node that an update for `k` stops at, if that node holds `k`. Below
   * fork 0 the update starts again at bit 0.
   */
  ghost predicate Bare(t: Tree, at: nat, k: Key)
    decreases t
  {
    t.Nil? ||
    var po := FirstDiff(t.entry.key, k, at);
    if po >= DEPTH then LastFork(t.forks, at).None?
    else
      match ForkAt(t.forks, po)
      case None => true
      case Some(c) => ForkAtIn(t.forks, po); Bare(c.tree, if po == 0 then 0 else po + 1, k)
  }

  lemma {:induction false} RemovedIsMatch(t: Tree, at: nat, k: Key)
    requires Valid(t, at) && Agree(t.entry.key, k, at) && at <= DEPTH
    ensures match Match(t, at, k)
            case None => Removed(t, at, k, 0) == {} && forall x | x in Entries(t, at) :: x.key != k
            case Some(m) => m.0.Node? && m.0.entry.key == k && Valid(m.0, m.1) &&
                            m.0.entry in Entries(t, at) && Removed(t, at, k, 0) == Entries(m.0, m.1)
    decreases t
  {
    hide Valid, ForkOk, Splits, Agree, Entries;
    LiveForks(t, at);
    var po := FirstDiff(t.entry.key, k, at);
    DiffSplits(t.entry.key, k, at);
    if po >= DEPTH {
      OwnEntry(t, at);
    } else {
      ForkAtFinds(t.forks, po);
      var c := ForkAt(t.forks, po);
      if c.None? {
        NotBelow(t, at, k, po);
      } else {
        LiveFork(t, at, c.value);
        ChildAgrees(t.entry.key, c.value, k);
        RemovedIsMatch(c.value.tree, po + 1, k);
        OnlyBelow(t, at, k, c.value);
      }
    }
  }

  lemma {:induction false} AloneIff(t: Tree, at: nat)
    requires Valid(t, at)
    ensures Entries(t, at) == {t.entry} <==> !HasLiveFork((t, at))
  {
    if f :| f in t.forks && f.at >= at {
      ForkEntry(t, at, f);
    }
  }

  /** A subtree under fork 0 is searched alike from bit 0 and from bit 1. */
  lemma {:induction false} RemovedFromZero(c: Tree, k: Key, loaded: nat)
    requires Valid(c, 0) && Entries(c, 0) == Entries(c, 1) && c.entry.key[0] == k[0]
    ensures Removed(c, 0, k, loaded) == Removed(c, 1, k, loaded)
  {
    assert FirstDiff(c.entry.key, k, 0) == FirstDiff(c.entry.key, k, 1);
  }

  /** What a delete of a present key leaves, however much of the tree is in memory. */
  lemma {:induction false} DeleteOutcome(t: Tree, k: Key, loaded: nat)
    requires Valid(t, 0) && k in Keys(Entries(t, 0))
    ensures Becomes(Update(t, k, None, loaded), Entries(t, 0) - Removed(t, 0, k, loaded))
  {
    hide Valid, Entries, Agree, Pull;
    StartAtRoot(t, k);
    assert All([], t, 0) == Entries(t, 0);
    RemovedIs(t, 0, k, loaded);
    if !Crosses(t, 0, k) {
      RemoveInner([], t, 0, k, loaded);
    } else {
      DeleteAcross(t, k, loaded);
    }
  }

  /** Below fork 0 the delete takes out what it takes out of the whole tree. */
  lemma {:induction false} GoneAcross(t: Tree, k: Key, loaded: nat, c: Fork)
    requires Valid(t, 0) && k in Keys(Entries(t, 0)) && Crosses(t, 0, k) && c in t.forks && c.at == 0
    requires ForkAt(t.forks, 0) == Some(c)
    requires Valid(c.tree, 0) && Entries(c.tree, 0) == Entries(c.tree, 1) == SameSide(Entries(t, 0), k[0])
    requires !Crosses(c.tree, 0, k)
    ensures Valid(c.tree, 0) && Entries(c.tree, 0) == Entries(c.tree, 1)
    ensures Removed(t, 0, k, loaded) == Removed(c.tree, 0, k, loaded) != {}
    ensures Removed(c.tree, 0, k, loaded) <= Entries(c.tree, 0) <= Entries(t, 0)
    ensures var r := UpdateInner([], c.tree, 0, k, None, loaded);
            r.Some? && Holds(Entries(c.tree, 0) - Removed(c.tree, 0, k, loaded), r.value)
  {
    hide Valid, Entries, Under, Whack, Wedge, Agree, Pull, ForkOk, AccOk;
    LiveFork(t, 0, c);
    StartAtRoot(c.tree, k);
    assert All([], c.tree, 0) == Entries(c.tree, 0);
    RemoveInner([], c.tree, 0, k, loaded);
    RemovedIs(c.tree, 0, k, loaded);
    CrossingBit(t, c, k);
    RemovedFromZero(c.tree, k, loaded);
  }

  lemma {:induction false} UpdateAcrossIs(t: Tree, k: Key, loaded: nat, c: Fork)
    requires t.Node? && Crosses(t, 0, k) && c in t.forks && ForkAt(t.forks, 0) == Some(c) && c.tree.Node?
    ensures var r := UpdateInner([], c.tree, 0, k, None, loaded);
            Update(t, k, None, loaded) ==
            Some(Node(t.entry, if r.None? || r.value.Nil? then Wedge([], t, 0, 0) else Whack([], r.value, -1, t, 0)))
  {
    hide Valid, Entries, Whack, Wedge, Pull;
  }

  lemma {:induction false} DeleteAcross(t: Tree, k: Key, loaded: nat)
    requires Valid(t, 0) && k in Keys(Entries(t, 0)) && Crosses(t, 0, k)
    ensures Becomes(Update(t, k, None, loaded), Entries(t, 0) - Removed(t, 0, k, loaded))
  {
    hide Valid, Entries, Under, Whack, Wedge, Agree, Pull, ForkOk, AccOk, Removed, UpdateInner, Update;
    var s := Entries(t, 0);
    var c := CrossingFork(t, k);
    GoneAcross(t, k, loaded, c);
    CrossingBit(t, c, k);
    UpdateAcrossIs(t, k, loaded, c);
    var half, gone := Entries(c.tree, 0), Removed(c.tree, 0, k, loaded);
    var r := UpdateInner([], c.tree, 0, k, None, loaded);
    assert s - half + (half - gone) == s - gone;
    OtherSide(t, c);
    if r.value.Node? {
      ReplaceZero(t, c, r.value);
    } else {
      NilHasNothing();
      DropZero(t, c);
    }
  }

  lemma {:induction false} OtherSide(t: Tree, c: Fork)
    requires Valid(t, 0) && c in t.forks && c.at == 0
    ensures forall x | x in Entries(c.tree, 1) :: x.key[0] != t.entry.key[0]
  {
    hide Entries, Valid;
    ZeroSide(t, c);
  }

  lemma {:induction false} CrossingBit(t: Tree, c: Fork, k: Key)
    requires Valid(t, 0) && Crosses(t, 0, k) && c in t.forks && c.at == 0
    ensures c.tree.Node? && c.tree.entry.key[0] == k[0]
  {
    LiveFork(t, 0, c);
  }

  /**
   * Deleting a present key does what is expected exactly when the child at the matched node's last
   * fork is in memory, or the node has no fork below the bit where it is entered.
   */
  lemma {:induction false} DeleteIsExpectedIff(t: Tree, k: Key, loaded: nat)
    requires RootOk(t) && k in Abs(t)
    ensures Match(t, 0, k).Some?
    ensures Abs(NewRoot(t, Update(t, k, None, loaded))) == Abs(t) - {k} <==>
            loaded > 0 || !HasLiveFork(Match(t, 0, k).value)
  {
    hide Valid, Entries, Agree, Update;
    var s := Entries(t, 0);
    RootUnique(t);
    MapOfIs(s);
    NotNil(t, k);
    StartAtRoot(t, k);
    DeleteOutcome(t, k, loaded);
    var gone := Removed(t, 0, k, loaded);
    RemovedIs(t, 0, k, loaded);
    RemovedIsMatch(t, 0, k);
    var m := Match(t, 0, k).value;
    AloneIff(m.0, m.1);
    assert loaded == 0 ==> gone == Entries(m.0, m.1);
    MapOfIs(s - gone);
    assert UniqueKeys(s - gone);
    SubtractIff(s, gone, k, m.0.entry);
    RemovedAlone(s, gone, k, m.0.entry, loaded);
  }

  /** The same condition along the way that the update takes. */
  lemma {:induction false} BareIsMatch(t: Tree, k: Key)
    requires RootOk(t) && k in Abs(t)
    ensures Match(t, 0, k).Some?
    ensures Bare(t, 0, k) <==> !HasLiveFork(Match(t, 0, k).value)
  {
    hide Valid, Entries, Agree, Bare, Match, Abs;
    NotNil(t, k);
    RootUnique(t);
    StartAtRoot(t, k);
    RemovedIsMatch(t, 0, k);
    BareBelow(t, 0, k);
  }

  lemma {:induction false} BareBelow(t: Tree, at: nat, k: Key)
    requires Valid(t, at) && Agree(t.entry.key, k, at) && at <= DEPTH && Match(t, at, k).Some?
    ensures Bare(t, at, k) <==> !HasLiveFork(Match(t, at, k).value)
    decreases t
  {
    hide Valid, ForkOk, Splits, Agree, Entries;
    LiveForks(t, at);
    var po := FirstDiff(t.entry.key, k, at);
    DiffSplits(t.entry.key, k, at);
    if po >= DEPTH {
      LastForkNone(t.forks, at);
    } else {
      ForkAtFinds(t.forks, po);
      var c := ForkAt(t.forks, po).value;
      LiveFork(t, at, c);
      ChildAgrees(t.entry.key, c, k);
      BareBelow(c.tree, po + 1, k);
      if po == 0 {
        ZeroChild(t, at, c, k);
        BareFromZero(c.tree, k);
      }
    }
  }

  lemma {:induction false} LastForkNone(fs: seq<Fork>, from: int)
    ensures LastFork(fs, from).None? <==> forall f | f in fs :: f.at < from
    decreases |fs|
  {
    if fs == [] {
    } else {
      var n := |fs| - 1;
      LastForkNone(fs[..n], from);
      assert fs == fs[..n] + [fs[n]];
    }
  }

  lemma ZeroChild(t: Tree, at: nat, c: Fork, k: Key)
    requires Valid(t, at) && c in t.forks && c.at == 0 == at && FirstDiff(t.entry.key, k, at) == 0
    ensures c.tree.Node? && c.tree.entry.key[0] == k[0] && forall g | g in c.tree.forks :: g.at != 0
  {
  }

  /** Under fork 0 it is the same to start at bit 0 and at bit 1. */
  lemma {:induction false} BareFromZero(c: Tree, k: Key)
    requires c.Node? && c.entry.key[0] == k[0] && forall g | g in c.forks :: g.at != 0
    ensures Bare(c, 0, k) <==> Bare(c, 1, k)
  {
    assert FirstDiff(c.entry.key, k, 0) == FirstDiff(c.entry.key, k, 1);
    LastForkNone(c.forks, 0);
    LastForkNone(c.forks, 1);
  }

  /** On a reloaded two-entry tree, deleting the root's key takes the other entry with it. */
  lemma {:induction false} DeleteLosesAnEntry(v: Value)
    ensures var t := TwoHalves(v);
            && RootOk(t) && Abs(t).Keys == {Zeros(), Zeros()[0 := true]}
            && Abs(NewRoot(t, Update(t, Zeros(), None, 0))) == map[] != Abs(t) - {Zeros()}
  {
    hide Valid, Entries, Abs;
    var t := TwoHalves(v);
    TwoHalvesOk(v);
    NilIsEmpty();
    NothingLeft(v);
    assert Zeros()[0 := true][0] && Zeros()[0 := true] in Abs(t) - {Zeros()};
  }

  /** The two-entry tree is what two puts make. */
  lemma {:induction false} TwoPuts(v: Value, n: nat, m: nat)
    ensures var one := NewRoot(Nil, Update(Nil, Zeros()[0 := true], Some(Entry(Zeros()[0 := true], v)), n));
            one.Node? && NewRoot(one, Update(one, Zeros(), Some(Entry(Zeros(), v)), m)) == TwoHalves(v)
  {
    var one := Node(Entry(Zeros()[0 := true], v), []);
    assert FirstDiff(one.entry.key, Zeros(), 0) == 0;
    assert Whirl([], one, 0, 0) == TwoHalves(v).forks;
  }

  /** Its root has something below it. */
  lemma {:induction false} TwoHalvesNotBare(v: Value)
    ensures !Bare(TwoHalves(v), 0, Zeros())
  {
    assert FirstDiff(Zeros(), Zeros(), 0) == DEPTH;
  }

  lemma NilIsEmpty()
    ensures Abs(Nil) == map[]
  {
    NilHasNothing();
  }

  lemma {:induction false} NothingLeft(v: Value)
    ensures Update(TwoHalves(v), Zeros(), None, 0) == Some(Nil)
  {
    var t := TwoHalves(v);
    assert FirstDiff(t.entry.key, Zeros(), 0) == DEPTH;
    assert ForkAt([], -1).None?;
  }

  lemma {:induction false} RemovedAlone(s: set<Entry>, gone: set<Entry>, k: Key, x: Entry, loaded: nat)
    requires UniqueKeys(s) && gone <= s && x in gone && x.key == k
    requires loaded > 0 ==> forall y | y in gone :: y.key == k
    ensures loaded > 0 ==> gone == {x}
  {
  }

  lemma {:induction false} NotNil(t: Tree, k: Key)
    requires RootOk(t) && k in Abs(t)
    ensures Valid(t, 0) && k in Keys(Entries(t, 0))
  {
  }

  lemma {:induction false} SubtractIff(s: set<Entry>, gone: set<Entry>, k: Key, x: Entry)
    requires UniqueKeys(s) && gone <= s && x in gone && x.key == k
    ensures MapOf(s - gone) == MapOf(s) - {k} <==> gone == {x}
  {
    if gone == {x} {
      assert After(s, k, EntryFor(k, None)) == s - gone;
      MapAfter(s, k, None);
    } else {
      var y :| y in gone && y != x;
      KeyGone(s, gone, y);
    }
  }

  lemma {:induction false} KeyGone(s: set<Entry>, gone: set<Entry>, y: Entry)
    requires UniqueKeys(s) && gone <= s && y in gone
    ensures y.key in MapOf(s) && y.key !in MapOf(s - gone)
  {
  }

  // ---------------------------------------------------------------- every update, loaded or not

  lemma {:induction false} PutIgnoresLoaded(acc: seq<Fork>, t: Tree, at: nat, k: Key, e: Entry, n: nat, m: nat)
    ensures UpdateInner(acc, t, at, k, Some(e), n) == UpdateInner(acc, t, at, k, Some(e), m)
    decreases t
  {
    hide Whirl, Whack, Wedge;
    if t.Node? && FirstDiff(t.entry.key, k, at) < DEPTH {
      var po := FirstDiff(t.entry.key, k, at);
      var c := ForkAt(t.forks, po);
      ForkAtIn(t.forks, po);
      if c.Some? && c.value.tree.Node? {
        if po == 0 {
          PutIgnoresLoaded(acc, c.value.tree, 0, k, e, n, m);
        } else {
          PutIgnoresLoaded(Whirl(acc, t, at, po), c.value.tree, po + 1, k, e, n, m);
        }
      }
    }
  }

  /** Deleting an absent key does the same whatever is in memory. */
  lemma {:induction false} AbsentIgnoresLoaded(t: Tree, k: Key, n: nat)
    requires RootOk(t) && k !in Keys(Entries(t, 0))
    ensures Update(t, k, None, n) == Update(t, k, None, 1)
  {
    hide Valid, Entries, Agree, Pull, Whack, Wedge;
    if t.Node? {
      if !Crosses(t, 0, k) {
        AbsentAside(t, k, n);
        AbsentAside(t, k, 1);
      } else {
        var c := CrossingFork(t, k);
        LiveFork(t, 0, c);
        assert k !in Keys(Entries(c.tree, 0));
        AbsentAside(c.tree, k, n);
        AbsentAside(c.tree, k, 1);
      }
    }
  }

  lemma {:induction false} AbsentAside(t: Tree, k: Key, n: nat)
    requires Valid(t, 0) && k !in Keys(Entries(t, 0)) && !Crosses(t, 0, k)
    ensures Update(t, k, None, n) == None
  {
    hide Valid, Entries, Agree, Pull, Whack, Wedge;
    StartAtRoot(t, k);
    RemovedIs(t, 0, k, n);
    RemoveInner([], t, 0, k, n);
  }

  /** No update, on any tree, however much of it is in memory, breaks the trie. */
  lemma {:induction false} UpdateStaysOk(t: Tree, k: Key, v: Option<Value>, n: nat)
    requires RootOk(t)
    ensures RootOk(NewRoot(t, Update(t, k, EntryFor(k, v), n)))
    ensures v.Some? ==> Update(t, k, EntryFor(k, v), n) == Update(t, k, EntryFor(k, v), 1)
  {
    hide Valid, Entries, Update, Crosses;
    UpdateRefines(t, k, v, 1);
    match v
    case Some(x) =>
      PutSame(t, k, x, n);
    case None =>
      if k in Keys(Entries(t, 0)) {
        NotNilKey(t, k);
        DeleteOutcome(t, k, n);
      } else {
        AbsentIgnoresLoaded(t, k, n);
      }
  }

  lemma {:induction false} PutSame(t: Tree, k: Key, x: Value, n: nat)
    ensures Update(t, k, Some(Entry(k, x)), n) == Update(t, k, Some(Entry(k, x)), 1)
  {
    PutIgnoresLoaded([], t, 0, k, Entry(k, x), n, 1);
  }

  lemma {:induction false} NotNilKey(t: Tree, k: Key)
    requires RootOk(t) && k in Keys(Entries(t, 0))
    ensures Valid(t, 0)
  {
  }

  /** The map after an update for which nothing was packed that it looked at. */
  ghost function Updated(t: Tree, k: Key, v: Option<Value>): map<Key, Value>
  {
    var m := Abs(t);
    if m == Expected(m, k, v) && Crosses(t, 0, k) then Half(m, t.entry.key[0]) else Expected(m, k, v)
  }

  /** Every update but the delete of a present key does the same whatever is in memory. */
  lemma {:induction false} UpdatedIs(t: Tree, k: Key, v: Option<Value>, loaded: nat)
    requires RootOk(t)
    ensures var t' := NewRoot(t, Update(t, k, EntryFor(k, v), loaded));
            RootOk(t') && (v.Some? || loaded > 0 || k !in Abs(t) ==> Abs(t') == Updated(t, k, v))
  {
    hide Update, Abs, Crosses;
    UpdateStaysOk(t, k, v, loaded);
    if v.Some? || k !in Abs(t) {
      UpdateRefines(t, k, v, 1);
      if v.None? {
        KeysAre(t, k);
        AbsentIgnoresLoaded(t, k, loaded);
      }
    } else if loaded > 0 {
      UpdateRefines(t, k, v, loaded);
    }
  }

  lemma KeysAre(t: Tree, k: Key)
    requires RootOk(t) && k !in Abs(t)
    ensures k !in Keys(Entries(t, 0))
  {
    if t.Nil? {
      NilHasNothing();
    } else {
      RootUnique(t);
      MapOfIs(Entries(t, 0));
    }
  }

  /** Deleting a present key, by what hangs below the node that holds it. */
  lemma {:induction false} DeletedIff(t: Tree, k: Key, loaded: nat)
    requires RootOk(t) && k in Abs(t)
    ensures Abs(NewRoot(t, Update(t, k, None, loaded))) == Abs(t) - {k} <==> loaded > 0 || Bare(t, 0, k)
  {
    hide Update, Abs, Bare, Match;
    DeleteIsExpectedIff(t, k, loaded);
    BareIsMatch(t, k);
  }
}
