/**
 * Insertion, replacement and removal. Every walk holds a pair: the forks collected in `acc`, and
 * the focus, a node entered at a bit. Moving the focus re-roots the trie without changing its
 * entries.
 */
module TrieUpdate {
  import opened Bits
  import opened Wrappers
  import opened Trie
  import opened TrieLaws

  /** The collected forks fit a node with key `key` that is entered at `at`. */
  ghost predicate AccOk(acc: seq<Fork>, key: Key, at: nat)
  {
    Ordered(acc) && forall f | f in acc :: f.at < at && ForkOk(key, f)
  }

  ghost function All(acc: seq<Fork>, t: Tree, at: nat): set<Entry>
  {
    Under(acc, 0) + Entries(t, at)
  }

  ghost function Siblings(t: Tree, at: nat, p: nat): set<Entry>
    requires t.Node?
  {
    set f, x | f in t.forks && f.at >= at && f.at != p && x in ForkEntries(f) :: x
  }

  lemma {:induction false} AccFits(acc: seq<Fork>, key: Key, other: Key, at: nat)
    requires AccOk(acc, key, at) && Agree(key, other, at)
    ensures AccOk(acc, other, at)
  {
    forall f | f in acc
      ensures ForkOk(other, f)
    {
      assert Splits(key, f.tree.entry.key, f.at);
    }
  }

  lemma {:induction false} NewAtOk(t: Tree, p: nat, key: Key)
    requires Valid(t, p + 1) && Splits(t.entry.key, key, p)
    requires p == 0 ==> forall f | f in t.forks :: f.at != 0
    ensures ForkOk(key, NewAt(p, t))
  {
    var f := NewAt(p, t);
    assert f.size == |ForkEntries(f)| by { SizeIsCardinality(t, p + 1); }
    assert Splits(key, f.tree.entry.key, f.at) by { SplitsBack(t.entry.key, key, p); }
    assert Valid(f.tree, f.at + 1);
  }

  lemma {:induction false} WhirlAcc(acc: seq<Fork>, t: Tree, at: nat, p: nat, key: Key)
    requires Valid(t, at) && AccOk(acc, t.entry.key, at)
    requires at <= p && Splits(t.entry.key, key, p)
    requires p == 0 ==> forall f | f in t.forks :: f.at != 0
    ensures AccOk(Whirl(acc, t, at, p), key, p + 1)
  {
    var r: seq<Fork> := AppendRange(acc, t.forks, at, p);
    AppendRangeForks(acc, t.forks, at, p);
    ValidLater(t, at, p + 1);
    NewAtOk(t, p, key);
    assert AccOk(r, t.entry.key, p);
    AccFits(r, t.entry.key, key, p);
    forall i, j | 0 <= i < j < |r + [NewAt(p, t)]|
      ensures (r + [NewAt(p, t)])[i].at < (r + [NewAt(p, t)])[j].at
    {
      assert r[i] in r;
    }
  }

  lemma {:induction false} WhirlEntries(acc: seq<Fork>, t: Tree, at: nat, p: nat)
    requires Valid(t, at) && AccOk(acc, t.entry.key, at) && at <= p
    ensures Under(Whirl(acc, t, at, p), 0) == Under(acc, 0) + {t.entry} + Siblings(t, at, p)
  {
    hide ForkEntries, ForkOk, AccOk, AppendRange, SizeFrom;
    var r := AppendRange(acc, t.forks, at, p);
    UnderSnoc(r, NewAt(p, t), 0);
    OwnEntries(t, p);
    BelowFocus(acc, t, at, p);
    SiblingsSplit(t, at, p);
  }

  lemma OwnEntries(t: Tree, p: nat)
    requires t.Node?
    ensures ForkEntries(NewAt(p, t)) == {t.entry} + Under(t.forks, p + 1)
  {
    hide SizeFrom;
    assert Entries(t, p + 1) == {t.entry} + Under(t.forks, p + 1);
  }

  /** The forks of `t` between two positions. */
  ghost function Between(fs: seq<Fork>, at: nat, p: nat): set<Entry>
  {
    set f, x | f in fs && at <= f.at < p && x in ForkEntries(f) :: x
  }

  lemma {:induction false} BelowFocus(acc: seq<Fork>, t: Tree, at: nat, p: nat)
    requires Valid(t, at) && AccOk(acc, t.entry.key, at) && at <= p
    ensures Under(AppendRange(acc, t.forks, at, p), 0) == Under(acc, 0) + Between(t.forks, at, p)
  {
    var r := AppendRange(acc, t.forks, at, p);
    AppendRangeForks(acc, t.forks, at, p);
    hide ForkEntries, AppendRange;
    forall x | x in Under(acc, 0) + Between(t.forks, at, p)
      ensures x in Under(r, 0)
    {
      var f :| (f in acc || (f in t.forks && at <= f.at < p)) && x in ForkEntries(f);
      assert f in r;
    }
  }

  lemma {:induction false} SiblingsSplit(t: Tree, at: nat, p: nat)
    requires t.Node? && at <= p
    ensures Siblings(t, at, p) == Between(t.forks, at, p) + Under(t.forks, p + 1)
  {
    hide ForkEntries;
  }

  lemma {:induction false} EntriesBySiblings(t: Tree, at: nat, c: Fork)
    requires Valid(t, at) && c in t.forks && c.at >= at
    ensures Entries(t, at) == {t.entry} + Siblings(t, at, c.at) + Entries(c.tree, c.at + 1)
  {
    assert ForkEntries(c) == Entries(c.tree, c.at + 1);
    forall f | f in t.forks && f.at == c.at ensures f == c { SameFork(t.forks, f, c); }
  }

  lemma {:induction false} LiveFork(t: Tree, at: nat, c: Fork)
    requires Valid(t, at) && c in t.forks && c.at >= at
    ensures ForkOk(t.entry.key, c) && c.tree.Node? && Valid(c.tree, c.at + 1)
    ensures Splits(t.entry.key, c.tree.entry.key, c.at)
  {
  }

  lemma {:induction false} LiveForks(t: Tree, at: nat)
    requires Valid(t, at)
    ensures t.Node? && Ordered(t.forks) && forall f | f in t.forks && f.at >= at :: f.at < DEPTH && f.tree.Node?
  {
  }

  /** Moving the focus to the node at fork `c` re-roots the trie there and keeps every entry. */
  lemma {:induction false} Rotate(acc: seq<Fork>, t: Tree, at: nat, c: Fork)
    requires Valid(t, at) && AccOk(acc, t.entry.key, at)
    requires c in t.forks && c.at >= at && c.at > 0
    ensures Valid(c.tree, c.at + 1) && AccOk(Whirl(acc, t, at, c.at), c.tree.entry.key, c.at + 1)
    ensures All(Whirl(acc, t, at, c.at), c.tree, c.at + 1) == All(acc, t, at)
  {
    hide Entries, Under, Siblings, Whirl, ForkOk, Valid, AccOk, Splits;
    LiveFork(t, at, c);
    WhirlAcc(acc, t, at, c.at, c.tree.entry.key);
    WhirlEntries(acc, t, at, c.at);
    EntriesBySiblings(t, at, c);
  }

  lemma {:induction false} TruncateAll(fs: seq<Fork>, po: int)
    requires forall f | f in fs :: f.at < po
    ensures Truncate(fs, po) == fs
  {
    if fs != [] {
      TruncateAll(fs[1..], po);
    }
  }

  lemma {:induction false} CopyNothing(fs: seq<Fork>, from: int, to: int)
    requires to <= from
    ensures Copy(fs, from, to) == []
  {
    if fs != [] && fs[0].at < from {
      CopyNothing(fs[1..], from, to);
    }
  }

  /** The whole live list of the focus, appended to the collected forks. */
  lemma {:induction false} FinishForks(acc: seq<Fork>, t: Tree, at: nat)
    requires Valid(t, at) && AccOk(acc, t.entry.key, at)
    ensures var r := AppendRange(acc, t.forks, at, DEPTH);
            AccOk(r, t.entry.key, DEPTH) && Under(r, 0) == Under(acc, 0) + Under(t.forks, at)
  {
    var r := AppendRange(acc, t.forks, at, DEPTH);
    AppendRangeForks(acc, t.forks, at, DEPTH);
    assert forall f | f in t.forks && f.at >= at :: ForkOk(t.entry.key, f) && f.at < DEPTH && f in r;
    assert forall f | f in acc :: f in r;
    assert forall f | f in r :: f in acc || (f in t.forks && f.at >= at);
  }

  /** With nothing left to copy above the last bit, replacing and removing end the same way. */
  lemma {:induction false} FinishShape(acc: seq<Fork>, t: Tree, at: nat)
    requires t.Node?
    requires var r := AppendRange(acc, t.forks, at, DEPTH); forall f | f in r :: f.at < DEPTH
    ensures AppendRange(AppendRange(acc, t.forks, at, DEPTH), [], DEPTH + 1, DEPTH) ==
            AppendRange(acc, t.forks, at, DEPTH)
    ensures Wedge(acc, t, at, DEPTH) == AppendRange(acc, t.forks, at, DEPTH)
  {
    var r := AppendRange(acc, t.forks, at, DEPTH);
    CopyNothing(t.forks, DEPTH + 1, DEPTH);
    TruncateAll(r, DEPTH + 1);
    assert r + [] == r;
  }

  lemma {:induction false} AccMisses(acc: seq<Fork>, key: Key, at: nat, k: Key, x: Entry)
    requires AccOk(acc, key, at) && Agree(key, k, at) && x in Under(acc, 0)
    ensures x.key != k
  {
    var f :| f in acc && x in ForkEntries(f);
    ForkSplits(key, f, x);
  }

  /** A key that leaves the node at bit `p` can only lie below the fork at `p`. */
  lemma {:induction false} KeyLiesBelow(t: Tree, at: nat, k: Key, p: nat, x: Entry)
    requires Valid(t, at) && Splits(t.entry.key, k, p) && x in Entries(t, at) && x.key == k
    ensures exists f :: f in t.forks && f.at == p && x in ForkEntries(f)
  {
    var f := UnderSplits(t, at, x);
    SplitsOnce(t.entry.key, k, f.at, p);
  }

  /** `FirstDiff` from a bit up to which the keys agree finds the bit that splits them. */
  lemma {:induction false} DiffSplits(a: Key, b: Key, at: nat)
    requires Agree(a, b, at) && at <= DEPTH
    ensures var po := FirstDiff(a, b, at); if po < DEPTH then at <= po && Splits(a, b, po) else a == b
  {
    var po := FirstDiff(a, b, at);
    if po < DEPTH {
      assert forall i :: at <= i < po ==> a[i] == b[i];
    } else {
      assert Agree(a, b, DEPTH);
    }
  }

  /** The child at the fork that splits the node from `k` agrees with `k` one bit further. */
  lemma {:induction false} ChildAgrees(key: Key, c: Fork, k: Key)
    requires ForkOk(key, c) && Splits(key, k, c.at)
    ensures Agree(c.tree.entry.key, k, c.at + 1)
  {
  }

  // ---------------------------------------------------------------- insertion and replacement

  /** `k` leaves the root at bit 0, where the root has a fork. */
  ghost predicate Crosses(t: Tree, at: nat, k: Key)
  {
    t.Node? && at == 0 && t.entry.key[0] != k[0] && exists f :: f in t.forks && f.at == 0
  }

  ghost function Without(s: set<Entry>, k: Key): set<Entry>
  {
    set x | x in s && x.key != k
  }

  ghost predicate Stored(r: Option<Tree>, s: set<Entry>)
  {
    r.Some? && r.value.Node? && Valid(r.value, 0) && Entries(r.value, 0) == s
  }

  lemma {:induction false} Pinned(e: Entry, fs: seq<Fork>)
    requires AccOk(fs, e.key, DEPTH)
    ensures Stored(Some(Node(e, fs)), Under(fs, 0) + {e})
  {
    assert Entries(Node(e, fs), 0) == {e} + Under(fs, 0);
  }

  lemma {:induction false} FocusKeyAlone(acc: seq<Fork>, t: Tree, at: nat)
    requires Valid(t, at) && AccOk(acc, t.entry.key, at)
    ensures forall x | x in Under(acc, 0) + Under(t.forks, at) :: x.key != t.entry.key
    ensures All(acc, t, at) == Under(acc, 0) + Under(t.forks, at) + {t.entry}
  {
    forall x | x in Under(acc, 0) + Under(t.forks, at)
      ensures x.key != t.entry.key
    {
      if x in Under(acc, 0) {
        AccMisses(acc, t.entry.key, at, t.entry.key, x);
      } else {
        var f :| f in t.forks && f.at >= at && x in ForkEntries(f);
        ForkSplits(t.entry.key, f, x);
      }
    }
  }

  lemma {:induction false} ReplaceAtFocus(acc: seq<Fork>, t: Tree, at: nat, e: Entry)
    requires Valid(t, at) && AccOk(acc, t.entry.key, at) && t.entry.key == e.key && t.entry.value != e.value
    ensures e !in All(acc, t, at)
    ensures Stored(Some(Node(e, Whack(acc, t, at, Node(e, []), DEPTH))), Without(All(acc, t, at), e.key) + {e})
  {
    var r := AppendRange(acc, t.forks, at, DEPTH);
    FinishForks(acc, t, at);
    FinishShape(acc, t, at);
    assert Whack(acc, t, at, Node(e, []), DEPTH) == r;
    Pinned(e, r);
    FocusKeyAlone(acc, t, at);
  }

  lemma {:induction false} InsertAtFocus(acc: seq<Fork>, t: Tree, at: nat, e: Entry, p: nat)
    requires Valid(t, at) && AccOk(acc, t.entry.key, at) && at <= p && Splits(t.entry.key, e.key, p)
    requires forall f | f in t.forks && f.at >= at :: f.at != p
    ensures forall x | x in All(acc, t, at) :: x.key != e.key
    ensures Stored(Some(Node(e, Whirl(acc, t, at, p))), All(acc, t, at) + {e})
  {
    WhirlAcc(acc, t, at, p, e.key);
    WhirlEntries(acc, t, at, p);
    assert Siblings(t, at, p) == Under(t.forks, at);
    assert AccOk(Whirl(acc, t, at, p), e.key, DEPTH);
    Pinned(e, Whirl(acc, t, at, p));
    forall x | x in All(acc, t, at)
      ensures x.key != e.key
    {
      if x in Under(acc, 0) {
        AccMisses(acc, t.entry.key, at, e.key, x);
      } else if x.key == e.key {
        KeyLiesBelow(t, at, e.key, p, x);
      }
    }
  }

  /** What a put at the focus amounts to. */
  ghost predicate PutDone(s: set<Entry>, e: Entry, r: Option<Tree>)
  {
    if e in s then r.None?
    else Stored(r, Without(s, e.key) + {e}) && r.value.entry == e
  }

  lemma {:induction false} PutInner(acc: seq<Fork>, t: Tree, at: nat, e: Entry, loaded: nat)
    requires Valid(t, at) && AccOk(acc, t.entry.key, at) && at <= DEPTH
    requires Agree(t.entry.key, e.key, at) && !Crosses(t, at, e.key)
    ensures PutDone(All(acc, t, at), e, UpdateInner(acc, t, at, e.key, Some(e), loaded))
    decreases t
  {
    hide Wedge, Whirl, Whack, Entries, Under, Valid, ForkOk, AccOk, Stored, Splits, Agree;
    LiveForks(t, at);
    var po := FirstDiff(t.entry.key, e.key, at);
    DiffSplits(t.entry.key, e.key, at);
    if po >= DEPTH {
      FocusKeyAlone(acc, t, at);
      if e.value != t.entry.value {
        ReplaceAtFocus(acc, t, at, e);
      }
    } else {
      ForkAtFinds(t.forks, po);
      var c := ForkAt(t.forks, po);
      if c.None? {
        InsertAtFocus(acc, t, at, e, po);
        assert Without(All(acc, t, at), e.key) == All(acc, t, at);
      } else {
        CrossesAtZero(t, at, e.key, po, c.value);
        LiveFork(t, at, c.value);
        Rotate(acc, t, at, c.value);
        ChildAgrees(t.entry.key, c.value, e.key);
        PutInner(Whirl(acc, t, at, po), c.value.tree, po + 1, e, loaded);
      }
    }
  }

  lemma {:induction false} CrossesAtZero(t: Tree, at: nat, k: Key, p: nat, c: Fork)
    requires t.Node? && at <= p && Splits(t.entry.key, k, p) && c in t.forks && c.at == p && !Crosses(t, at, k)
    ensures p > 0
  {
  }

  // ---------------------------------------------------------------- removal

  /** The entries that removing `k` takes away: those of the whole matched node if it cannot look below it. */
  ghost function Removed(t: Tree, at: nat, k: Key, loaded: nat): set<Entry>
    decreases t
  {
    if t.Nil? then {}
    else
      var po := FirstDiff(t.entry.key, k, at);
      if po >= DEPTH then if loaded == 0 then Entries(t, at) else {t.entry}
      else
        var c := ForkAt(t.forks, po);
        ForkAtIn(t.forks, po);
        if c.None? then {} else Removed(c.value.tree, po + 1, k, loaded)
  }

  ghost predicate Holds(s: set<Entry>, r: Tree)
  {
    Entries(r, 0) == s && (r.Node? ==> Valid(r, 0))
  }

  lemma {:induction false} Finish(acc: seq<Fork>, t: Tree, at: nat)
    requires Valid(t, at) && AccOk(acc, t.entry.key, at)
    ensures Stored(Some(Node(t.entry, Wedge(acc, t, at, DEPTH))), All(acc, t, at))
  {
    FinishForks(acc, t, at);
    FinishShape(acc, t, at);
    Pinned(t.entry, AppendRange(acc, t.forks, at, DEPTH));
    FocusKeyAlone(acc, t, at);
  }

  /** The walk down the last forks keeps every entry and ends in a valid root, wherever it stops. */
  lemma {:induction false} PullTailKeeps(acc: seq<Fork>, t: Tree, at: nat, loaded: nat)
    requires Valid(t, at) && AccOk(acc, t.entry.key, at) && at > 0
    ensures Stored(Some(PullTail(acc, t, at, loaded)), All(acc, t, at))
    decreases t
  {
    hide Wedge, Whirl, Entries, Under, Valid, ForkOk, AccOk, Stored;
    LiveForks(t, at);
    LastForkFinds(t.forks, at);
    var last := LastFork(t.forks, at);
    if loaded > 0 && last.Some? {
      var c := last.value;
      Rotate(acc, t, at, c);
      PullTailKeeps(Whirl(acc, t, at, c.at), c.tree, c.at + 1, loaded - 1);
    } else {
      Finish(acc, t, at);
    }
  }

  lemma {:induction false} WedgeForks(acc: seq<Fork>, t: Tree, at: int, cut: int)
    requires t.Node? && Ordered(acc) && Ordered(t.forks) && at <= cut < DEPTH
    requires forall f | f in acc :: f.at < at
    ensures Ordered(Wedge(acc, t, at, cut))
    ensures forall f :: f in Wedge(acc, t, at, cut) <==>
                        f in acc || (f in t.forks && at <= f.at < DEPTH && f.at != cut)
  {
    AppendRangeForks(acc, t.forks, at, cut);
    AppendRangeForks(AppendRange(acc, t.forks, at, cut), t.forks, cut + 1, DEPTH);
  }

  lemma {:induction false} SameForks(fs: seq<Fork>, c: Fork)
    requires Ordered(fs) && c in fs
    ensures forall f | f in fs && f.at == c.at :: f == c
  {
  }

  lemma {:induction false} UnderParts(w: seq<Fork>, acc: seq<Fork>, t: Tree, at: nat, cut: nat)
    requires t.Node?
    requires forall f :: f in w <==> f in acc || (f in t.forks && at <= f.at && f.at != cut)
    ensures Under(w, 0) == Under(acc, 0) + Siblings(t, at, cut)
  {
    assert forall f | f in acc :: f in w;
    assert forall f | f in t.forks && f.at >= at && f.at != cut :: f in w;
  }

  /** Dropping an inner node in favour of the child at its last fork. */
  lemma {:induction false} PromoteLast(acc: seq<Fork>, t: Tree, at: nat, c: Fork)
    requires Valid(t, at) && AccOk(acc, t.entry.key, at) && c in t.forks && c.at >= at
    requires forall f | f in t.forks :: f.at <= c.at
    ensures var w := Wedge(acc, t, at, c.at);
            Valid(c.tree, c.at + 1) && AccOk(w, c.tree.entry.key, c.at + 1) &&
            All(w, c.tree, c.at + 1) == All(acc, t, at) - {t.entry}
  {
    hide Entries, Under, Siblings, Wedge, ForkOk, Valid, AccOk;
    LiveFork(t, at, c);
    PromoteAcc(acc, t, at, c);
    EntriesBySiblings(t, at, c);
    FocusKeyAlone(acc, t, at);
    SiblingsUnder(t, at, c);
  }

  lemma {:induction false} SiblingsUnder(t: Tree, at: nat, c: Fork)
    requires Valid(t, at) && c in t.forks && c.at >= at
    ensures Siblings(t, at, c.at) <= Under(t.forks, at) && Entries(c.tree, c.at + 1) <= Under(t.forks, at)
  {
    assert ForkEntries(c) == Entries(c.tree, c.at + 1);
  }

  lemma {:induction false} PromoteAcc(acc: seq<Fork>, t: Tree, at: nat, c: Fork)
    requires Valid(t, at) && AccOk(acc, t.entry.key, at) && c in t.forks && c.at >= at
    requires forall f | f in t.forks :: f.at <= c.at
    ensures c.tree.Node? && AccOk(Wedge(acc, t, at, c.at), c.tree.entry.key, c.at + 1)
    ensures Under(Wedge(acc, t, at, c.at), 0) == Under(acc, 0) + Siblings(t, at, c.at)
  {
    var w := Wedge(acc, t, at, c.at);
    LiveFork(t, at, c);
    WedgeForks(acc, t, at, c.at);
    SameForks(t.forks, c);
    assert AccOk(w, t.entry.key, c.at);
    AccFits(w, t.entry.key, c.tree.entry.key, c.at);
    UnderParts(w, acc, t, at, c.at);
  }

  /** Dropping a focus without taking anything from below it: its parent becomes the root again. */
  lemma {:induction false} DropFocus(acc: seq<Fork>, t: Tree, at: nat, p: Fork)
    requires Valid(t, at) && AccOk(acc, t.entry.key, at) && at > 0 && p in acc && p.at == at - 1
    ensures var fs := Wedge(Truncate(acc, at - 1), p.tree, at - 1, at - 1);
            p.tree.Node? && Stored(Some(Node(p.tree.entry, fs)), Under(acc, 0))
  {
    hide Under, Wedge, Truncate, Valid, AccOk, Stored;
    DropAcc(acc, t, at, p);
    DropEntries(acc, t, at, p);
    Pinned(p.tree.entry, Wedge(Truncate(acc, at - 1), p.tree, at - 1, at - 1));
  }

  lemma {:induction false} DropEntries(acc: seq<Fork>, t: Tree, at: nat, p: Fork)
    requires Valid(t, at) && AccOk(acc, t.entry.key, at) && at > 0 && p in acc && p.at == at - 1
    ensures p.tree.Node?
    ensures Under(acc, 0) == Under(Wedge(Truncate(acc, at - 1), p.tree, at - 1, at - 1), 0) + {p.tree.entry}
  {
    var a := Truncate(acc, at - 1);
    assert ForkOk(t.entry.key, p);
    TruncateForks(acc, at - 1);
    SameForks(acc, p);
    UnderSplit(acc, a, p);
    DropAcc(acc, t, at, p);
    ForkHolds(t.entry.key, p, at);
  }

  lemma {:induction false} ForkHolds(key: Key, p: Fork, at: nat)
    requires at > 0 && p.at == at - 1 && ForkOk(key, p)
    ensures ForkEntries(p) == {p.tree.entry} + Siblings(p.tree, at, at - 1)
  {
    hide Valid;
    var fs := p.tree.forks;
    assert ForkEntries(p) == Entries(p.tree, at);
    OwnAndUnder(p.tree, at);
    assert forall g | g in fs && g.at >= at :: g.at != at - 1;
    assert Under(fs, at) == Siblings(p.tree, at, at - 1);
  }

  lemma {:induction false} OwnAndUnder(t: Tree, at: nat)
    requires t.Node?
    ensures Entries(t, at) == {t.entry} + Under(t.forks, at)
  {
  }

  lemma {:induction false} UnderSplit(acc: seq<Fork>, a: seq<Fork>, p: Fork)
    requires forall f :: f in acc <==> f in a || f == p
    ensures Under(acc, 0) == Under(a, 0) + ForkEntries(p)
  {
    assert p in acc;
    assert forall f | f in a :: f in acc;
  }

  lemma {:induction false} DropAcc(acc: seq<Fork>, t: Tree, at: nat, p: Fork)
    requires Valid(t, at) && AccOk(acc, t.entry.key, at) && at > 0 && p in acc && p.at == at - 1
    ensures p.tree.Node? && Valid(p.tree, at) &&
            AccOk(Wedge(Truncate(acc, at - 1), p.tree, at - 1, at - 1), p.tree.entry.key, DEPTH)
    ensures Under(Wedge(Truncate(acc, at - 1), p.tree, at - 1, at - 1), 0) ==
            Under(Truncate(acc, at - 1), 0) + Siblings(p.tree, at, at - 1)
  {
    var a := Truncate(acc, at - 1);
    assert ForkOk(t.entry.key, p);
    TruncateForks(acc, at - 1);
    WedgeForks(a, p.tree, at - 1, at - 1);
    AccFits(a, t.entry.key, p.tree.entry.key, at - 1);
    LiveForks(p.tree, at);
    UnderParts(Wedge(a, p.tree, at - 1, at - 1), a, p.tree, at, at - 1);
  }

  lemma {:induction false} AccApart(acc: seq<Fork>, t: Tree, at: nat)
    requires Valid(t, at) && AccOk(acc, t.entry.key, at)
    ensures Under(acc, 0) !! Entries(t, at)
  {
    forall x | x in Under(acc, 0) && x in Entries(t, at)
      ensures false
    {
      EntriesAgree(t, at, x);
      AccMisses(acc, t.entry.key, at, x.key, x);
    }
  }

  lemma {:induction false} NoLiveFork(t: Tree, at: nat)
    requires t.Node? && forall f | f in t.forks :: f.at < at
    ensures Entries(t, at) == {t.entry}
  {
  }

  lemma {:induction false} NoAcc(acc: seq<Fork>, key: Key)
    requires AccOk(acc, key, 0)
    ensures acc == [] && Under(acc, 0) == {}
  {
    HasMember(acc);
  }

  lemma {:induction false} HasMember(fs: seq<Fork>)
    ensures fs == [] || exists f :: f in fs
  {
    assert fs == [] || fs[0] in fs;
  }

  lemma {:induction false} PullRemoves(acc: seq<Fork>, t: Tree, at: nat, loaded: nat)
    requires Valid(t, at) && AccOk(acc, t.entry.key, at)
    requires at > 0 ==> exists p :: p in acc && p.at == at - 1
    ensures Holds(All(acc, t, at) - (if loaded == 0 then Entries(t, at) else {t.entry}), Pull(acc, t, at, loaded))
  {
    hide Wedge, Whirl, Truncate, Entries, Under, Valid, ForkOk, AccOk;
    LiveForks(t, at);
    LastForkFinds(t.forks, at);
    var last := LastFork(t.forks, at);
    if loaded > 0 && last.Some? {
      var c := last.value;
      PromoteLast(acc, t, at, c);
      PullTailKeeps(Wedge(acc, t, at, c.at), c.tree, c.at + 1, loaded - 1);
    } else {
      if loaded > 0 { NoLiveFork(t, at); }
      AccApart(acc, t, at);
      if at == 0 {
        NoAcc(acc, t.entry.key);
        NilHasNothing();
      } else {
        AccOrdered(acc, t.entry.key, at);
        ForkAtFinds(acc, at - 1);
        DropFocus(acc, t, at, ForkAt(acc, at - 1).value);
      }
    }
  }

  lemma {:induction false} NilHasNothing()
    ensures Entries(Nil, 0) == {}
  {
  }

  lemma {:induction false} AccOrdered(acc: seq<Fork>, key: Key, at: nat)
    requires AccOk(acc, key, at)
    ensures Ordered(acc)
  {
  }

  lemma {:induction false} RemoveInner(acc: seq<Fork>, t: Tree, at: nat, k: Key, loaded: nat)
    requires Valid(t, at) && AccOk(acc, t.entry.key, at) && at <= DEPTH
    requires Agree(t.entry.key, k, at) && !Crosses(t, at, k)
    requires at > 0 ==> exists p :: p in acc && p.at == at - 1
    ensures var r := UpdateInner(acc, t, at, k, None, loaded);
            var gone := Removed(t, at, k, loaded);
            if gone == {} then r.None? else r.Some? && Holds(All(acc, t, at) - gone, r.value)
    decreases t
  {
    hide Wedge, Whirl, Whack, Entries, Under, Valid, ForkOk, AccOk, Splits, Agree, Holds, Pull;
    LiveForks(t, at);
    var po := FirstDiff(t.entry.key, k, at);
    DiffSplits(t.entry.key, k, at);
    if po >= DEPTH {
      PullRemoves(acc, t, at, loaded);
      FocusKeyAlone(acc, t, at);
      OwnEntry(t, at);
    } else {
      ForkAtFinds(t.forks, po);
      var c := ForkAt(t.forks, po);
      if c.Some? {
        CrossesAtZero(t, at, k, po, c.value);
        LiveFork(t, at, c.value);
        Rotate(acc, t, at, c.value);
        ChildAgrees(t.entry.key, c.value, k);
        WhirlEnds(acc, t, at, po);
        RemoveInner(Whirl(acc, t, at, po), c.value.tree, po + 1, k, loaded);
      }
    }
  }

  lemma {:induction false} OwnEntry(t: Tree, at: nat)
    requires t.Node?
    ensures t.entry in Entries(t, at)
  {
  }

  lemma {:induction false} WhirlEnds(acc: seq<Fork>, t: Tree, at: nat, p: nat)
    requires t.Node?
    ensures exists q :: q in Whirl(acc, t, at, p) && q.at == p
  {
    assert NewAt(p, t) in Whirl(acc, t, at, p);
  }

  /** What `Removed` takes: the entry of `k`, together with all that hangs below it if nothing there is loaded. */
  lemma {:induction false} RemovedIs(t: Tree, at: nat, k: Key, loaded: nat)
    requires Valid(t, at) && Agree(t.entry.key, k, at) && at <= DEPTH
    ensures Removed(t, at, k, loaded) <= Entries(t, at)
    ensures forall x | x in Entries(t, at) && x.key == k :: x in Removed(t, at, k, loaded)
    ensures (forall x | x in Entries(t, at) :: x.key != k) ==> Removed(t, at, k, loaded) == {}
    ensures loaded > 0 ==> forall x | x in Removed(t, at, k, loaded) :: x.key == k
    decreases t
  {
    hide Valid, ForkOk, Splits, Agree, Entries;
    LiveForks(t, at);
    var po := FirstDiff(t.entry.key, k, at);
    DiffSplits(t.entry.key, k, at);
    if po >= DEPTH {
      OwnEntry(t, at);
      forall x | x in Entries(t, at) && x.key == k
        ensures x == t.entry
      {
        KeysAreUnique(t, at, x, t.entry);
      }
    } else {
      ForkAtFinds(t.forks, po);
      var c := ForkAt(t.forks, po);
      if c.None? {
        NotBelow(t, at, k, po);
      } else {
        LiveFork(t, at, c.value);
        ChildAgrees(t.entry.key, c.value, k);
        RemovedIs(c.value.tree, po + 1, k, loaded);
        OnlyBelow(t, at, k, c.value);
      }
    }
  }

  lemma {:induction false} NotBelow(t: Tree, at: nat, k: Key, p: nat)
    requires Valid(t, at) && Splits(t.entry.key, k, p) && forall f | f in t.forks :: f.at != p
    ensures forall x | x in Entries(t, at) :: x.key != k
  {
    forall x | x in Entries(t, at)
      ensures x.key != k
    {
      if x.key == k {
        KeyLiesBelow(t, at, k, p, x);
      }
    }
  }

  lemma {:induction false} OnlyBelow(t: Tree, at: nat, k: Key, c: Fork)
    requires Valid(t, at) && Splits(t.entry.key, k, c.at) && c in t.forks && c.at >= at
    ensures Entries(c.tree, c.at + 1) <= Entries(t, at)
    ensures forall x | x in Entries(t, at) && x.key == k :: x in Entries(c.tree, c.at + 1)
  {
    assert ForkEntries(c) == Entries(c.tree, c.at + 1);
    forall x | x in Entries(t, at) && x.key == k
      ensures x in Entries(c.tree, c.at + 1)
    {
      KeyLiesBelow(t, at, k, c.at, x);
      SameForks(t.forks, c);
    }
  }
}
