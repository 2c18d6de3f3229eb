/**
 * Publishing to an epoch feed: walk down the spine of the time while chunks are found, and write below
 * the last one. A read that fails looks like an epoch without a chunk.
 */
module FeedPublisher {
  import opened Bytes
  import opened Epochs
  import opened Wrappers

  datatype Update = Update(timestamp: nat, reference: Bytes)

  /** The epoch of this level with the time in it. */
  function SpineAt(at: nat, l: nat): (e: Epoch)
    requires l <= MAX_EPOCH_LEVEL
    ensures Aligned(e) && e.level == l && Contains(e, at)
  {
    Epoch(RoundDown(at, Pow2(l)), l)
  }

  function Parent(e: Epoch): Epoch
  {
    Epoch(RoundDown(e.start, 2 * Length(e)), e.level + 1)
  }

  lemma {:induction false} OnSpine(e: Epoch, at: nat)
    requires Aligned(e) && Contains(e, at)
    ensures e == SpineAt(at, e.level)
  {
    hide Pow2;
    var s := SpineAt(at, e.level);
    ContainsIsQuotient(e, at);
    ContainsIsQuotient(s, at);
  }

  lemma {:induction false} ChildOnSpine(at: nat, l: nat)
    requires 0 < l <= MAX_EPOCH_LEVEL
    ensures ChildAt(SpineAt(at, l), at) == Some(SpineAt(at, l - 1))
  {
    hide Pow2, ChildAt, SpineAt;
    ChildIsTheHalf(SpineAt(at, l), at);
    OnSpine(ChildAt(SpineAt(at, l), at).value, at);
  }

  lemma {:induction false} ParentOnSpine(at: nat, l: nat)
    requires l < MAX_EPOCH_LEVEL
    ensures Parent(SpineAt(at, l)) == SpineAt(at, l + 1)
  {
    var d := Pow2(l);
    assert Pow2(l + 1) == 2 * d;
    hide Pow2;
    DivTwice(at, d);
    DivTwice(RoundDown(at, d), d);
    var p := Parent(SpineAt(at, l));
    ContainsIsQuotient(p, at);
    OnSpine(p, at);
  }

  lemma {:induction false} TopOnSpine(at: nat)
    requires InTree(at)
    ensures SpineAt(at, MAX_EPOCH_LEVEL) == TOP
  {
    hide Pow2;
    ModOf(0, Pow2(MAX_EPOCH_LEVEL));
    OnSpine(TOP, at);
  }

  type Chunks = map<Epoch, Update>

  /** Every update is in an epoch of its time, and the epoch above is occupied. */
  ghost predicate IsTree(chunks: Chunks)
  {
    forall e | e in chunks :: Placed(chunks, e)
  }

  ghost predicate Placed(chunks: Chunks, e: Epoch)
    requires e in chunks
  {
    && Aligned(e) && InTree(chunks[e].timestamp) && Contains(e, chunks[e].timestamp)
    && (e.level < MAX_EPOCH_LEVEL ==> Parent(e) in chunks)
  }

  /** No update is above an earlier one. */
  ghost predicate InOrder(chunks: Chunks)
  {
    forall e | e in chunks && Parent(e) in chunks :: chunks[Parent(e)].timestamp <= chunks[e].timestamp
  }

  /** From this level up the whole spine is occupied, and below it nothing is. */
  ghost predicate OccupiedFrom(chunks: Chunks, at: nat, l: nat)
  {
    forall m | 0 <= m <= MAX_EPOCH_LEVEL :: SpineAt(at, m) in chunks <==> l <= m
  }

  lemma {:induction false} OccupiedAbove(chunks: Chunks, at: nat, l: nat, m: nat)
    requires IsTree(chunks) && l <= m <= MAX_EPOCH_LEVEL && SpineAt(at, l) in chunks
    ensures SpineAt(at, m) in chunks
    decreases m
  {
    hide Pow2, SpineAt, Parent;
    if l < m {
      OccupiedAbove(chunks, at, l, m - 1);
      assert Placed(chunks, SpineAt(at, m - 1));
      ParentOnSpine(at, m - 1);
    }
  }

  lemma {:induction false} FullAbove(chunks: Chunks, at: nat, l: nat)
    requires IsTree(chunks) && l <= MAX_EPOCH_LEVEL && SpineAt(at, l) in chunks &&
             (l > 0 ==> SpineAt(at, l - 1) !in chunks)
    ensures OccupiedFrom(chunks, at, l)
  {
    hide SpineAt, IsTree;
    forall m | 0 <= m <= MAX_EPOCH_LEVEL
      ensures SpineAt(at, m) in chunks <==> l <= m
    {
      if l <= m {
        OccupiedAbove(chunks, at, l, m);
      } else if SpineAt(at, m) in chunks {
        OccupiedAbove(chunks, at, m, l - 1);
      }
    }
  }

  lemma {:induction false} VacantBelow(chunks: Chunks, at: nat, l: nat)
    requires IsTree(chunks) && l <= MAX_EPOCH_LEVEL && SpineAt(at, l) !in chunks
    requires l < MAX_EPOCH_LEVEL ==> SpineAt(at, l + 1) in chunks
    ensures OccupiedFrom(chunks, at, l + 1)
  {
    hide SpineAt, IsTree;
    if l < MAX_EPOCH_LEVEL {
      FullAbove(chunks, at, l + 1);
    } else {
      forall m | 0 <= m <= MAX_EPOCH_LEVEL
        ensures SpineAt(at, m) !in chunks
      {
        if SpineAt(at, m) in chunks {
          OccupiedAbove(chunks, at, m, MAX_EPOCH_LEVEL);
        }
      }
    }
  }

  /** The spine is occupied from this level up. */
  ghost predicate OccupiedTo(chunks: Chunks, at: nat, l: nat)
  {
    forall m | l <= m <= MAX_EPOCH_LEVEL :: SpineAt(at, m) in chunks
  }

  /** Writing an epoch with all of the spine above it occupied keeps the tree. */
  lemma {:induction false} WriteKeepsTree(chunks: Chunks, at: nat, l: nat, reference: Bytes)
    requires IsTree(chunks) && l <= MAX_EPOCH_LEVEL && OccupiedTo(chunks, at, l + 1) && InTree(at)
    ensures IsTree(chunks[SpineAt(at, l) := Update(at, reference)])
  {
    hide SpineAt, Parent, Pow2;
    var e := SpineAt(at, l);
    var after := chunks[e := Update(at, reference)];
    if l < MAX_EPOCH_LEVEL {
      ParentOnSpine(at, l);
      assert SpineAt(at, l + 1) in chunks;
    }
    forall f | f in after
      ensures Placed(after, f)
    {
      if f != e {
        assert Placed(chunks, f);
      }
    }
  }

  /** A vacant epoch has nothing below it, so that writing it with the newest update keeps the order too. */
  lemma {:induction false} WriteKeepsOrder(chunks: Chunks, at: nat, l: nat, reference: Bytes)
    requires IsTree(chunks) && InOrder(chunks) && l <= MAX_EPOCH_LEVEL && SpineAt(at, l) !in chunks
    requires forall e | e in chunks :: chunks[e].timestamp <= at
    ensures InOrder(chunks[SpineAt(at, l) := Update(at, reference)])
  {
    hide SpineAt, Parent, Pow2;
    var e := SpineAt(at, l);
    var after := chunks[e := Update(at, reference)];
    forall f | f in after && Parent(f) in after
      ensures after[Parent(f)].timestamp <= after[f].timestamp
    {
      if f != e {
        assert Placed(chunks, f);
        AboveIsLarger(f);
      }
    }
  }

  lemma AboveIsLarger(e: Epoch)
    ensures Parent(e).level == e.level + 1
  {
    hide Pow2;
  }

  /**
   * The update is the deepest on its spine exactly if the next epoch down was vacant, or there is none.
   */
  lemma {:induction false} DeepestIff(chunks: Chunks, at: nat, l: nat, reference: Bytes)
    requires IsTree(chunks) && l <= MAX_EPOCH_LEVEL && OccupiedTo(chunks, at, l + 1)
    ensures OccupiedFrom(chunks[SpineAt(at, l) := Update(at, reference)], at, l) <==>
            l == 0 || SpineAt(at, l - 1) !in chunks
  {
    hide SpineAt, IsTree;
    var after := chunks[SpineAt(at, l) := Update(at, reference)];
    assert forall m | 0 <= m <= MAX_EPOCH_LEVEL :: SpineAt(at, m).level == m;
    if l == 0 || SpineAt(at, l - 1) !in chunks {
      forall m | 0 <= m <= MAX_EPOCH_LEVEL
        ensures SpineAt(at, m) in after <==> l <= m
      {
        if m < l && SpineAt(at, m) in chunks {
          OccupiedAbove(chunks, at, m, l - 1);
        }
      }
    }
  }

  lemma {:induction false} NextOnSpine(at: nat, l: nat, last: nat)
    requires l <= MAX_EPOCH_LEVEL
    ensures NextOf(SpineAt(at, l), last, at) == if l == 0 then None else Some(SpineAt(at, l - 1))
  {
    hide Pow2, SpineAt;
    if l > 0 {
      ChildOnSpine(at, l);
    }
  }

  /** The read of this level on the way down the spine finds a chunk; the i-th read of a walk is of level 32 - i. */
  ghost predicate Found(chunks: Chunks, at: nat, answers: nat -> bool, m: nat)
    requires m <= MAX_EPOCH_LEVEL
  {
    SpineAt(at, m) in chunks && answers(MAX_EPOCH_LEVEL - m)
  }

  /** The walk has found every level from `l` on. */
  ghost predicate FoundTo(chunks: Chunks, at: nat, answers: nat -> bool, l: nat)
  {
    forall m | l <= m <= MAX_EPOCH_LEVEL :: Found(chunks, at, answers, m)
  }

  type History = seq<(Epoch, Update)>

  ghost function LatestOf(history: History): nat
  {
    if history == [] then 0 else history[|history| - 1].1.timestamp
  }

  /** Where something was published there is that or something later, and nothing else is there. */
  ghost predicate Kept(chunks: Chunks, history: History)
  {
    && (forall h | h in history :: h.0 in chunks && h.1.timestamp <= chunks[h.0].timestamp)
    && (forall e | e in chunks :: (e, chunks[e]) in history && chunks[e].timestamp <= LatestOf(history))
  }

  /** Nothing that was published has been overwritten, and no update is above an earlier one. */
  ghost predicate Intact(chunks: Chunks, history: History)
  {
    && (forall h | h in history :: h.0 in chunks && chunks[h.0] == h.1)
    && (forall i, j | 0 <= i < j < |history| :: history[i].0 != history[j].0)
    && |chunks| == |history| && InOrder(chunks)
  }

  lemma {:induction false} KeptMore(chunks: Chunks, history: History, e: Epoch, u: Update)
    requires Kept(chunks, history) && LatestOf(history) <= u.timestamp
    ensures Kept(chunks[e := u], history + [(e, u)])
  {
    var more := history + [(e, u)];
    assert more[|history|] == (e, u);
    assert forall h | h in history :: h in more;
  }

  lemma {:induction false} IntactMore(chunks: Chunks, history: History, e: Epoch, u: Update)
    requires Intact(chunks, history) && e !in chunks && InOrder(chunks[e := u])
    ensures Intact(chunks[e := u], history + [(e, u)])
  {
    hide InOrder;
    assert forall h | h in history :: h.0 != e;
    assert |chunks[e := u]| == |chunks| + 1 by {
      assert chunks[e := u].Keys == chunks.Keys + {e};
      assert |chunks[e := u]| == |chunks[e := u].Keys| && |chunks| == |chunks.Keys|;
    }
    var more := history + [(e, u)];
    forall i, j | 0 <= i < j < |more|
      ensures more[i].0 != more[j].0
    {
      assert more[i] in history;
    }
  }

  class Feed {
    var chunks: Chunks

    ghost var history: History
    ghost var lost: bool                     // a read has failed at an occupied epoch, which was then written again

    constructor ()
      ensures Valid() && chunks == map[] && history == [] && !lost
    {
      chunks, history, lost := map[], [], false;
    }

    ghost function Latest(): nat
      reads this
    {
      LatestOf(history)
    }

    ghost predicate Valid()
      reads this
    {
      IsTree(chunks) && Kept(chunks, history) && (!lost ==> Intact(chunks, history))
    }

    /** The deepest chunk on the spine of the time that is found, from the root down. */
    method RecoverFeedHints(at: nat, answers: nat -> bool) returns (hint: Option<(Epoch, nat)>)
      requires IsTree(chunks) && InTree(at)
      ensures hint.None? ==> !Found(chunks, at, answers, MAX_EPOCH_LEVEL)
      ensures hint.Some? ==> var e := hint.value.0;
              e.level <= MAX_EPOCH_LEVEL && e == SpineAt(at, e.level) && FoundTo(chunks, at, answers, e.level) &&
              (e.level > 0 ==> !Found(chunks, at, answers, e.level - 1))
      ensures hint.Some? ==> hint.value.0 in chunks && hint.value.1 == chunks[hint.value.0].timestamp
    {
      hide IsTree, SpineAt, Pow2, ChildAt;
      var epoch := Epoch(0, MAX_EPOCH_LEVEL);
      hint := None;
      TopOnSpine(at);
      var fetched := 0;
      while true
        invariant epoch.level <= MAX_EPOCH_LEVEL && epoch == SpineAt(at, epoch.level)
        invariant fetched == MAX_EPOCH_LEVEL - epoch.level && FoundTo(chunks, at, answers, epoch.level + 1)
        invariant epoch.level == MAX_EPOCH_LEVEL ==> hint.None?
        invariant epoch.level < MAX_EPOCH_LEVEL ==> hint.Some? && hint.value.0 == SpineAt(at, epoch.level + 1)
        invariant hint.Some? ==> hint.value.0 in chunks && hint.value.1 == chunks[hint.value.0].timestamp
        decreases epoch.level
      {
        if epoch !in chunks || !answers(fetched) {
          break;
        }
        fetched := fetched + 1;
        hint := Some((epoch, chunks[epoch].timestamp));
        if epoch.level == 0 {
          break;
        }
        ChildOnSpine(at, epoch.level);
        epoch := ChildAt(epoch, at).value;
      }
    }

    /**
     * Writes the first epoch of the spine at which no chunk is found; when a chunk is found at each there is
     * no epoch to write.
     */
    method Publish(at: nat, reference: Bytes, answers: nat -> bool) returns (r: Option<Epoch>)
      requires Valid() && InTree(at) && Latest() <= at
      modifies this
      ensures Valid()
      ensures r.None? <==> FoundTo(old(chunks), at, answers, 0)
      ensures r.None? ==> chunks == old(chunks) && history == old(history) && lost == old(lost)
      ensures r.Some? ==> var l := r.value.level;
              l <= MAX_EPOCH_LEVEL && r.value == SpineAt(at, l) && !Found(old(chunks), at, answers, l) &&
              FoundTo(old(chunks), at, answers, l + 1)
      ensures r.Some? ==>
              chunks == old(chunks)[r.value := Update(at, reference)] &&
              history == old(history) + [(r.value, Update(at, reference))]
      ensures r.Some? ==> var l := r.value.level;
              OccupiedFrom(chunks, at, l) <==> l == 0 || SpineAt(at, l - 1) !in old(chunks)
      ensures lost <==> old(lost) || (r.Some? && r.value in old(chunks))
    {
      hide IsTree, SpineAt, Pow2, ChildAt, NextOf, Found, Kept, Intact, InOrder;
      var hint := RecoverFeedHints(at, answers);
      if hint.Some? {
        r := NextEpoch(Some(hint.value.0), hint.value.1, at);
        NextOnSpine(at, hint.value.0.level, hint.value.1);
      } else {
        r := NextEpoch(None, 0, at);
        TopOnSpine(at);
      }
      if r.Some? {
        FoundIsOccupied(chunks, at, answers, r.value.level + 1);
        WriteKeepsTree(chunks, at, r.value.level, reference);
        DeepestIff(chunks, at, r.value.level, reference);
        Write(r.value, Update(at, reference));
      }
    }

    method Write(e: Epoch, u: Update)
      requires Valid() && IsTree(chunks[e := u]) && Latest() <= u.timestamp
      requires e.level <= MAX_EPOCH_LEVEL && e == SpineAt(u.timestamp, e.level)
      modifies this
      ensures Valid() && chunks == old(chunks)[e := u] && history == old(history) + [(e, u)]
      ensures lost <==> old(lost) || e in old(chunks)
    {
      hide IsTree, SpineAt, InOrder, Kept, Intact;
      KeptMore(chunks, history, e, u);
      if e !in chunks && !lost {
        Earlier(chunks, history, u.timestamp);
        WriteKeepsOrder(chunks, u.timestamp, e.level, u.reference);
        IntactMore(chunks, history, e, u);
      }
      lost := lost || e in chunks;
      chunks := chunks[e := u];
      history := history + [(e, u)];
    }
  }

  lemma Earlier(chunks: Chunks, history: History, at: nat)
    requires Kept(chunks, history) && Intact(chunks, history) && LatestOf(history) <= at
    ensures InOrder(chunks) && forall e | e in chunks :: chunks[e].timestamp <= at
  {
    hide InOrder;
  }

  lemma FoundIsOccupied(chunks: Chunks, at: nat, answers: nat -> bool, l: nat)
    requires FoundTo(chunks, at, answers, l)
    ensures OccupiedTo(chunks, at, l)
  {
    hide SpineAt;
    forall m | l <= m <= MAX_EPOCH_LEVEL
      ensures SpineAt(at, m) in chunks
    {
      assert Found(chunks, at, answers, m);
    }
  }

  /** With all reads answered nothing is overwritten and the newest update is the deepest on its spine. */
  lemma {:induction false} AnsweredIsFirstVacant(chunks: Chunks, at: nat, answers: nat -> bool, l: nat)
    requires IsTree(chunks) && l <= MAX_EPOCH_LEVEL && FoundTo(chunks, at, answers, l + 1)
    requires !Found(chunks, at, answers, l) && answers(MAX_EPOCH_LEVEL - l)
    ensures SpineAt(at, l) !in chunks && (l > 0 ==> SpineAt(at, l - 1) !in chunks)
    ensures OccupiedFrom(chunks, at, l + 1)
  {
    hide SpineAt, IsTree;
    FoundIsOccupied(chunks, at, answers, l + 1);
    VacantBelow(chunks, at, l);
  }

  /** The walk stops at one level only. */
  lemma OneStop(chunks: Chunks, at: nat, answers: nat -> bool, l: nat, k: nat)
    requires l <= MAX_EPOCH_LEVEL && k <= MAX_EPOCH_LEVEL
    requires !Found(chunks, at, answers, l) && FoundTo(chunks, at, answers, l + 1)
    requires !Found(chunks, at, answers, k) && FoundTo(chunks, at, answers, k + 1)
    ensures l == k && !FoundTo(chunks, at, answers, 0)
  {
    hide Found;
  }

  lemma HalfIsLong()
    ensures Pow2(31) > 2
  {
    assert Pow2(31) == 4 * Pow2(29);
  }

  lemma SameHalf()
    ensures SpineAt(1, 31) == SpineAt(2, 31) == Epoch(0, 31)
    ensures SpineAt(0, 32) == SpineAt(1, 32) == SpineAt(2, 32) == TOP
  {
    hide Pow2, SpineAt, InTree;
    HalfIsLong();
    InTreeIs(0);
    InTreeIs(1);
    InTreeIs(2);
    TopOnSpine(0);
    TopOnSpine(1);
    TopOnSpine(2);
    ModOf(0, Pow2(31));
    OnSpine(Epoch(0, 31), 1);
    OnSpine(Epoch(0, 31), 2);
  }

  /** Three updates, the last one over a failed read: whoever walks down its spine passes it and ends at the second. */
  method LostReadHidesNewest() returns (feed: Feed)
    ensures feed.Valid() && feed.lost && |feed.history| == 3
    ensures TOP in feed.chunks && feed.chunks[TOP] == feed.history[2].1 && feed.history[2].1.timestamp == 2
    ensures SpineAt(2, 31) in feed.chunks && feed.chunks[SpineAt(2, 31)].timestamp == 1
  {
    hide IsTree, SpineAt, Kept, Intact, InOrder, OccupiedFrom;
    feed := new Feed();
    SameHalf();
    var yes, no := (i: nat) => true, (i: nat) => false;
    var first := feed.Publish(0, [], yes);
    OneStop(map[], 0, yes, if first.Some? then first.value.level else 32, 32);
    var second := feed.Publish(1, [], yes);
    OneStop(map[TOP := Update(0, [])], 1, yes, if second.Some? then second.value.level else 31, 31);
    ghost var before := feed.chunks;
    var third := feed.Publish(2, [], no);
    OneStop(before, 2, no, if third.Some? then third.value.level else 32, 32);
  }
}
