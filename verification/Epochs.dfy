/** Epochs: aligned intervals of 2^level seconds, the nodes of a binary tree over time. */
module Epochs {
  import opened Bytes
  import opened Wrappers

  const MAX_EPOCH_LEVEL := 32

  datatype Epoch = Epoch(start: nat, level: nat)

  const TOP := Epoch(0, MAX_EPOCH_LEVEL)

  function Length(e: Epoch): nat
  {
    Pow2(e.level)
  }

  predicate Aligned(e: Epoch)
  {
    e.level <= MAX_EPOCH_LEVEL && e.start % Length(e) == 0
  }

  predicate Contains(e: Epoch, t: nat)
  {
    e.start <= t < e.start + Length(e)
  }

  ghost predicate Within(e: Epoch, outer: Epoch)
  {
    outer.start <= e.start && e.start + Length(e) <= outer.start + Length(outer)
  }

  ghost predicate Disjoint(e: Epoch, f: Epoch)
  {
    e.start + Length(e) <= f.start || f.start + Length(f) <= e.start
  }

  // ---------------------------------------------------------------- division

  lemma {:induction false} MulMono(a: nat, b: nat, d: nat)
    requires a <= b
    ensures a * d <= b * d
  {
  }

  lemma {:induction false} DivIs(t: nat, d: nat, q: nat)
    requires d > 0 && q * d <= t < q * d + d
    ensures t / d == q
  {
    var p := t / d;
    assert t == p * d + t % d;
    if p < q {
      MulMono(p + 1, q, d);
    } else if p > q {
      MulMono(q + 1, p, d);
    }
  }

  lemma {:induction false} DivRange(t: nat, d: nat)
    requires d > 0
    ensures (t / d) * d <= t < (t / d) * d + d
  {
    assert t == (t / d) * d + t % d;
  }

  /** An aligned epoch contains exactly the times with its quotient. */
  lemma {:induction false} ContainsIsQuotient(e: Epoch, t: nat)
    requires Aligned(e)
    ensures Contains(e, t) <==> t / Length(e) == e.start / Length(e)
    ensures e.start == (e.start / Length(e)) * Length(e)
  {
    var d := Length(e);
    var q := e.start / d;
    assert e.start == q * d + e.start % d;
    if Contains(e, t) {
      DivIs(t, d, q);
    }
    DivRange(t, d);
  }

  lemma {:induction false} DivTwice(t: nat, d: nat)
    requires d > 0
    ensures t / (2 * d) == (t / d) / 2
  {
    var p := t / d;
    DivRange(t, d);
    var h := p / 2;
    assert p == 2 * h || p == 2 * h + 1;
    assert h * (2 * d) == (2 * h) * d;
    assert (2 * h + 1) * d == (2 * h) * d + d;
    DivIs(t, 2 * d, h);
  }

  /** What agrees at one level agrees at every higher one. */
  lemma {:induction false} AgreeAbove(s: nat, t: nat, l: nat, m: nat)
    requires l <= m && s / Pow2(l) == t / Pow2(l)
    ensures s / Pow2(m) == t / Pow2(m)
    decreases m
  {
    if l < m {
      AgreeAbove(s, t, l, m - 1);
      DivTwice(s, Pow2(m - 1));
      DivTwice(t, Pow2(m - 1));
    }
  }

  // ---------------------------------------------------------------- childAt

  /** Setting one bit, given as the power of two. */
  function OrBit(x: nat, bit: nat): nat
    requires bit > 0
  {
    if (x / bit) % 2 == 1 then x else x + bit
  }

  /** The child towards a time; a leaf has none, its would-be level is rejected. */
  function ChildAt(e: Epoch, at: nat): (r: Option<Epoch>)
  {
    if e.level == 0 || e.level > MAX_EPOCH_LEVEL + 1 then None
    else
      var length := Pow2(e.level - 1);
      Some(Epoch(if (at / length) % 2 == 1 then OrBit(e.start, length) else e.start, e.level - 1))
  }

  lemma {:induction false} ChildForm(e: Epoch, at: nat)
    requires Aligned(e) && e.level > 0 && Contains(e, at)
    ensures var d := Pow2(e.level - 1); Length(e) == 2 * d && e.start % d == 0 && (e.start + d) % d == 0
    ensures var d := Pow2(e.level - 1);
            ChildAt(e, at) == Some(Epoch(if at < e.start + d then e.start else e.start + d, e.level - 1))
  {
    var d := Pow2(e.level - 1);
    var q := e.start / (2 * d);
    assert Length(e) == 2 * d;
    hide Pow2;
    ContainsIsQuotient(e, at);
    Halves(e.start, at, d, q);
    hide Aligned, Contains;
    assert (2 * q) % 2 == 0 && (2 * q + 1) % 2 == 1;
  }

  /** The child is the half of the epoch that contains the time. */
  lemma {:induction false} ChildIsTheHalf(e: Epoch, at: nat)
    requires Aligned(e) && e.level > 0 && Contains(e, at)
    ensures ChildAt(e, at).Some?
    ensures var c := ChildAt(e, at).value; Aligned(c) && c.level == e.level - 1 && Contains(c, at) && Within(c, e)
  {
    hide Pow2, ChildAt;
    ChildForm(e, at);
  }

  lemma {:induction false} Halves(start: nat, at: nat, d: nat, q: nat)
    requires d > 0 && start == q * (2 * d) && start <= at < start + 2 * d
    ensures start / d == 2 * q && start % d == 0 && (start + d) % d == 0
    ensures at / d == if at < start + d then 2 * q else 2 * q + 1
  {
    assert start == (2 * q) * d && start + d == (2 * q + 1) * d;
    ModOf(2 * q, d);
    ModOf(2 * q + 1, d);
    DivIs(start, d, 2 * q);
    DivIs(at, d, if at < start + d then 2 * q else 2 * q + 1);
  }

  lemma {:induction false} ModOf(q: nat, d: nat)
    requires d > 0
    ensures (q * d) % d == 0
  {
    DivIs(q * d, d, q);
  }

  // ---------------------------------------------------------------- lca

  /** The least level, from l on, at which the two times agree; or the top. */
  function AgreeLevel(at: nat, after: nat, l: nat): (r: nat)
    requires l <= MAX_EPOCH_LEVEL
    ensures l <= r <= MAX_EPOCH_LEVEL
    decreases MAX_EPOCH_LEVEL - l
  {
    if l == MAX_EPOCH_LEVEL || at / Pow2(l) == after / Pow2(l) then l else AgreeLevel(at, after, l + 1)
  }

  function RoundDown(t: nat, d: nat): (r: nat)
    requires d > 0
    ensures r <= t < r + d && r % d == 0 && r / d == t / d
  {
    DivRange(t, d);
    ModOf(t / d, d);
    DivIs((t / d) * d, d, t / d);
    t / d * d
  }

  function CommonEpoch(at: nat, after: nat): Epoch
  {
    if after == 0 then TOP else var l := AgreeLevel(at, after, 0); Epoch(RoundDown(after, Pow2(l)), l)
  }

  lemma {:induction false} FarApart(at: nat, after: nat, length: nat)
    requires 0 < length < at - after
    ensures at / length != after / length
  {
    DivRange(at, length);
    DivRange(after, length);
  }

  method Lca(at: nat, after: nat) returns (e: Epoch)
    ensures e == CommonEpoch(at, after)
  {
    hide RoundDown;
    if after == 0 {
      return Epoch(0, MAX_EPOCH_LEVEL);
    }
    var diff := at - after;
    var length, level := 1, 0;
    while level < MAX_EPOCH_LEVEL && (length < diff || at / length != after / length)
      invariant level <= MAX_EPOCH_LEVEL && length == Pow2(level)
      invariant AgreeLevel(at, after, level) == AgreeLevel(at, after, 0)
    {
      if length < diff {
        FarApart(at, after, length);
      }
      length := length * 2;
      level := level + 1;
    }
    return Epoch(RoundDown(after, length), level);
  }

  lemma {:induction false} AgreesFirst(at: nat, after: nat, l: nat)
    requires l <= MAX_EPOCH_LEVEL
    ensures var r := AgreeLevel(at, after, l); r < MAX_EPOCH_LEVEL ==> at / Pow2(r) == after / Pow2(r)
    ensures forall m | l <= m < AgreeLevel(at, after, l) :: at / Pow2(m) != after / Pow2(m)
    decreases MAX_EPOCH_LEVEL - l
  {
    if l < MAX_EPOCH_LEVEL && at / Pow2(l) != after / Pow2(l) {
      AgreesFirst(at, after, l + 1);
    }
  }

  /** The times an epoch has to fit in the tree at all. */
  predicate InTree(t: nat)
  {
    t < Pow2(MAX_EPOCH_LEVEL)
  }

  /** These are the times below 2^32. */
  lemma {:induction false} InTreeIs(t: nat)
    ensures InTree(t) <==> t < 0x1_0000_0000
    ensures Contains(TOP, t) <==> t < 0x1_0000_0000
  {
    assert Pow2(32) == 0x1_0000 * Pow2(16) && Pow2(16) == 0x1_0000 by {
      assert Pow2(8) == 256;
      assert Pow2(16) == 256 * Pow2(8);
      assert Pow2(24) == 256 * Pow2(16);
    }
  }

  /** lca is an aligned epoch with both times in it ... */
  lemma {:induction false} CommonContainsBoth(at: nat, after: nat)
    requires InTree(at) && InTree(after)
    ensures var e := CommonEpoch(at, after); Aligned(e) && Contains(e, at) && Contains(e, after)
  {
    hide Pow2, RoundDown, AgreeLevel;
    var e := CommonEpoch(at, after);
    if after == 0 {
      ModOf(0, Pow2(MAX_EPOCH_LEVEL));
    } else {
      AgreesFirst(at, after, 0);
      DivIs(at, Pow2(MAX_EPOCH_LEVEL), 0);
      DivIs(after, Pow2(MAX_EPOCH_LEVEL), 0);
      ContainsIsQuotient(e, at);
      ContainsIsQuotient(e, after);
    }
  }

  /** ... and lies in every other such epoch. */
  lemma {:induction false} CommonIsSmallest(at: nat, after: nat, f: Epoch)
    requires after > 0 && Aligned(f) && Contains(f, at) && Contains(f, after)
    ensures CommonEpoch(at, after).level <= f.level && Within(CommonEpoch(at, after), f)
  {
    hide Pow2, RoundDown, AgreeLevel;
    var e := CommonEpoch(at, after);
    AgreesFirst(at, after, 0);
    ContainsIsQuotient(f, at);
    ContainsIsQuotient(f, after);
    assert e.level <= f.level;
    MeetingNests(e, f, after);
  }

  /** Two aligned epochs with a time in common are nested. */
  lemma {:induction false} MeetingNests(e: Epoch, f: Epoch, t: nat)
    requires Aligned(e) && Aligned(f) && e.level <= f.level && Contains(e, t) && Contains(f, t)
    ensures Within(e, f)
  {
    ContainsIsQuotient(e, t);
    ContainsIsQuotient(f, t);
    ContainsIsQuotient(e, e.start);
    AgreeAbove(t, e.start, e.level, f.level);
    ContainsIsQuotient(f, e.start);
    var last := e.start + Length(e) - 1;
    DivIs(last, Length(e), e.start / Length(e));
    AgreeAbove(t, last, e.level, f.level);
    ContainsIsQuotient(f, last);
  }

  // ---------------------------------------------------------------- next

  method Next(e: Epoch, last: nat, at: nat) returns (r: Option<Epoch>)
    ensures r == NextOf(e, last, at)
  {
    if e.start + Length(e) > at {
      return ChildAt(e, at);
    }
    var common := Lca(at, last);
    return ChildAt(common, at);
  }

  function NextOf(e: Epoch, last: nat, at: nat): Option<Epoch>
  {
    if e.start + Length(e) > at then ChildAt(e, at) else ChildAt(CommonEpoch(at, last), at)
  }

  method NextEpoch(prev: Option<Epoch>, last: nat, at: nat) returns (r: Option<Epoch>)
    ensures r == if prev.None? then Some(TOP) else NextOf(prev.value, last, at)
  {
    if prev.None? {
      return Some(Epoch(0, MAX_EPOCH_LEVEL));
    }
    r := Next(prev.value, last, at);
  }

  /** Once the time has left the previous epoch, the next one contains the time ... */
  lemma {:induction false} NextContains(prev: Epoch, last: nat, at: nat)
    requires Aligned(prev) && Contains(prev, last) && !Contains(prev, at) && last < at && InTree(at)
    ensures NextOf(prev, last, at).Some?
    ensures var n := NextOf(prev, last, at).value;
            Aligned(n) && Contains(n, at) &&
            n.level + 1 == CommonEpoch(at, last).level
  {
    CommonContainsBoth(at, last);
    var e := CommonEpoch(at, last);
    LeftBehind(prev, last, at);
    ChildIsTheHalf(e, at);
  }

  lemma {:induction false} LeftBehind(prev: Epoch, last: nat, at: nat)
    requires Aligned(prev) && Contains(prev, last) && !Contains(prev, at) && last < at && InTree(at)
    ensures prev.level < CommonEpoch(at, last).level
  {
    var e := CommonEpoch(at, last);
    CommonContainsBoth(at, last);
    ContainsIsQuotient(prev, last);
    ContainsIsQuotient(prev, at);
    ContainsIsQuotient(e, last);
    ContainsIsQuotient(e, at);
    if e.level <= prev.level {
      AgreeAbove(at, last, e.level, prev.level);
    }
  }

  /** ... and is disjoint from the previous one, unless the last time was 0: 0 stands for "never" too. */
  lemma {:induction false} NextIsDisjointIff(prev: Epoch, last: nat, at: nat)
    requires Aligned(prev) && Contains(prev, last) && !Contains(prev, at) && last < at && InTree(at)
    ensures NextOf(prev, last, at).Some?
    ensures Disjoint(NextOf(prev, last, at).value, prev) <==> last > 0 || at >= Pow2(MAX_EPOCH_LEVEL - 1)
  {
    NextContains(prev, last, at);
    LeftBehind(prev, last, at);
    var n := NextOf(prev, last, at).value;
    if last > 0 {
      AgreesFirst(at, last, 0);
      ContainsIsQuotient(n, at);
      ContainsIsQuotient(n, last);
      assert !Contains(n, last);
    }
    ApartOrNested(prev, n, last);
  }

  /** After a first update at time 0 in the smallest epoch, the next epoch covers that one. */
  lemma {:induction false} NextCoversTheFirst()
    ensures var prev := Epoch(0, 0);
            && Aligned(prev) && Contains(prev, 0) && !Contains(prev, 1)
            && NextOf(prev, 0, 1).Some? && Within(prev, NextOf(prev, 0, 1).value)
  {
    var prev := Epoch(0, 0);
    assert Pow2(31) == 2 * Pow2(30);
    ChildIsTheHalf(TOP, 1);
  }

  lemma {:induction false} ApartOrNested(e: Epoch, f: Epoch, t: nat)
    requires Aligned(e) && Aligned(f) && e.level <= f.level && Contains(e, t)
    ensures Disjoint(f, e) <==> !Contains(f, t)
  {
    if !Disjoint(f, e) {
      var u := if e.start <= f.start then f.start else e.start;
      assert Contains(e, u) && Contains(f, u);
      MeetingNests(e, f, u);
    }
  }
}
