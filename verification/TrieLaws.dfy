/** What the trie operations mean for the set of entries. */
module TrieLaws {
  import opened Bits
  import opened Wrappers
  import opened Trie

  // ---------------------------------------------------------------- ordered fork lists

  lemma {:induction false} TruncateForks(fs: seq<Fork>, po: int)
    requires Ordered(fs)
    ensures Ordered(Truncate(fs, po))
    ensures forall f :: f in Truncate(fs, po) <==> f in fs && f.at < po
  {
    if fs != [] && fs[0].at < po {
      TruncateForks(fs[1..], po);
      assert fs == [fs[0]] + fs[1..];
    }
  }

  lemma {:induction false} CopyForks(fs: seq<Fork>, from: int, to: int)
    requires Ordered(fs)
    ensures Ordered(Copy(fs, from, to))
    ensures forall f :: f in Copy(fs, from, to) <==> f in fs && from <= f.at < to
  {
    if fs != [] {
      CopyForks(fs[1..], from, to);
      assert fs == [fs[0]] + fs[1..];
    }
  }

  lemma {:induction false} AppendRangeForks(dst: seq<Fork>, src: seq<Fork>, from: int, to: int)
    requires Ordered(dst) && Ordered(src)
    ensures Ordered(AppendRange(dst, src, from, to))
    ensures forall f :: f in AppendRange(dst, src, from, to) <==>
                        (f in dst && f.at < from) || (f in src && from <= f.at < to)
  {
    TruncateForks(dst, from);
    CopyForks(src, from, to);
    var t: seq<Fork>, c: seq<Fork> := Truncate(dst, from), Copy(src, from, to);
    forall i, j | 0 <= i < j < |t + c|
      ensures (t + c)[i].at < (t + c)[j].at
    {
      assert i < |t| ==> (t + c)[i] in t;
      assert j >= |t| ==> (t + c)[j] in c;
    }
  }

  lemma {:induction false} ForkAtFinds(fs: seq<Fork>, po: int)
    requires Ordered(fs)
    ensures forall f :: f in fs && f.at == po ==> ForkAt(fs, po) == Some(f)
    ensures ForkAt(fs, po).Some? ==> ForkAt(fs, po).value in fs && ForkAt(fs, po).value.at == po
  {
    if fs != [] && fs[0].at != po {
      ForkAtFinds(fs[1..], po);
    }
  }

  lemma {:induction false} LastForkFinds(fs: seq<Fork>, from: int)
    requires Ordered(fs)
    ensures var r := LastFork(fs, from);
            if r.Some? then r.value in fs && r.value.at >= from && forall f :: f in fs ==> f.at <= r.value.at
            else forall f :: f in fs ==> f.at < from
  {
    if fs != [] && fs[|fs| - 1].at < from {
      LastForkFinds(fs[..|fs| - 1], from);
    }
  }

  // ---------------------------------------------------------------- valid subtrees

  lemma {:induction false} ValidLater(t: Tree, at: nat, b: nat)
    requires Valid(t, at) && at <= b
    ensures Valid(t, b)
  {
  }

  /** Everything below a node agrees with its key up to the bit where it is entered. */
  lemma {:induction false} EntriesAgree(t: Tree, at: nat, x: Entry)
    requires Valid(t, at) && x in Entries(t, at)
    ensures Agree(t.entry.key, x.key, at)
    decreases t
  {
    if x != t.entry {
      var f :| f in t.forks && f.at >= at && x in ForkEntries(f);
      EntriesAgree(f.tree, f.at + 1, x);
    }
  }

  /** Every key below a fork first differs from the parent's key at that fork. */
  lemma {:induction false} ForkSplits(key: Key, f: Fork, x: Entry)
    requires ForkOk(key, f) && x in ForkEntries(f)
    ensures Splits(key, x.key, f.at)
  {
    EntriesAgree(f.tree, f.at + 1, x);
  }

  lemma {:induction false} SizeOfForks(key: Key, fs: seq<Fork>, at: nat)
    requires Ordered(fs) && forall f | f in fs && f.at >= at :: ForkOk(key, f)
    ensures SizeFrom(fs, at) == |Under(fs, at)|
  {
    hide Under, ForkOk;
    if fs == [] {
      UnderNothing(at);
    } else {
      var n := |fs| - 1;
      SizeOfForks(key, fs[..n], at);
      assert fs == fs[..n] + [fs[n]];
      UnderLast(key, fs[..n], fs[n], at);
    }
  }

  lemma {:induction false} UnderNothing(at: nat)
    ensures Under([], at) == {}
  {
  }

  lemma {:induction false} UnderLast(key: Key, fs: seq<Fork>, g: Fork, at: nat)
    requires forall f | f in fs :: f.at < g.at && (f.at >= at ==> ForkOk(key, f))
    requires g.at >= at ==> ForkOk(key, g)
    ensures g.at < at ==> Under(fs + [g], at) == Under(fs, at)
    ensures g.at >= at ==> |Under(fs + [g], at)| == |Under(fs, at)| + g.size
  {
    hide Under, Splits;
    UnderSnoc(fs, g, at);
    if g.at >= at {
      ForksApart(key, fs, g, at);
    }
  }

  lemma {:induction false} UnderSnoc(fs: seq<Fork>, g: Fork, at: nat)
    ensures Under(fs + [g], at) == if g.at < at then Under(fs, at) else Under(fs, at) + ForkEntries(g)
  {
    assert g in fs + [g];
    assert forall f | f in fs :: f in fs + [g];
  }

  lemma {:induction false} ForksApart(key: Key, fs: seq<Fork>, g: Fork, at: nat)
    requires ForkOk(key, g) && forall f | f in fs && f.at >= at :: f.at != g.at && ForkOk(key, f)
    ensures Under(fs, at) !! ForkEntries(g)
  {
    forall x | x in Under(fs, at) && x in ForkEntries(g)
      ensures false
    {
      var f :| f in fs && f.at >= at && x in ForkEntries(f);
      ForkSplits(key, f, x);
      ForkSplits(key, g, x);
    }
  }

  /** Stored sizes add up to the number of entries. */
  lemma {:induction false} SizeIsCardinality(t: Tree, at: nat)
    requires Valid(t, at)
    ensures 1 + SizeFrom(t.forks, at) == |Entries(t, at)|
  {
    SizeOfForks(t.entry.key, t.forks, at);
    assert Entries(t, at) == {t.entry} + Under(t.forks, at);
    if t.entry in Under(t.forks, at) {
      var f :| f in t.forks && f.at >= at && t.entry in ForkEntries(f);
      ForkSplits(t.entry.key, f, t.entry);
    }
  }

  lemma {:induction false} SameFork(fs: seq<Fork>, f: Fork, g: Fork)
    requires Ordered(fs) && f in fs && g in fs && f.at == g.at
    ensures f == g
  {
  }

  lemma {:induction false} SplitsOnce(a: Key, b: Key, p: nat, q: nat)
    requires Splits(a, b, p) && Splits(a, b, q)
    ensures p == q
  {
  }

  /** A tree holds at most one entry for a key. */
  lemma {:induction false} KeysAreUnique(t: Tree, at: nat, x: Entry, y: Entry)
    requires Valid(t, at) && x in Entries(t, at) && y in Entries(t, at) && x.key == y.key
    ensures x == y
    decreases t
  {
    if x == t.entry && y == t.entry {
    } else if x == t.entry {
      var _ := UnderSplits(t, at, y);
    } else if y == t.entry {
      var _ := UnderSplits(t, at, x);
    } else {
      var f := UnderSplits(t, at, x);
      var g := UnderSplits(t, at, y);
      SplitsOnce(t.entry.key, x.key, f.at, g.at);
      SameFork(t.forks, f, g);
      KeysAreUnique(f.tree, f.at + 1, x, y);
    }
  }

  /** The fork below which an entry other than the node's own lies. */
  lemma {:induction false} UnderSplits(t: Tree, at: nat, x: Entry) returns (f: Fork)
    requires Valid(t, at) && x in Entries(t, at) && x != t.entry
    ensures f in t.forks && f.at >= at && ForkOk(t.entry.key, f) && x in ForkEntries(f)
    ensures Splits(t.entry.key, x.key, f.at)
  {
    f :| f in t.forks && f.at >= at && x in ForkEntries(f);
    ForkSplits(t.entry.key, f, x);
  }
}
