/**
 * The pipelined uploader over one chunk stream: senders wait for a slot, acks come back in send order.
 * Each method is one event, or one sender running on after an await.
 */
module ChunkStream {
  import opened Wrappers

  const MAX_PAYLOAD_SIZE := 4096

  /** Where a send is: in the queue, woken but not yet running, past the check, on the wire, settled. */
  datatype Phase = Waiting | Woken | Passed | Sent | Resolved | Rejected

  predicate Settled(p: Phase)
  {
    p.Resolved? || p.Rejected?
  }

  predicate InTransit(p: Phase)
  {
    p.Woken? || p.Passed?
  }

  type Phases = map<nat, Phase>

  ghost function Elements(s: seq<nat>): set<nat>
  {
    set x | x in s
  }

  ghost predicate Distinct(s: seq<nat>)
  {
    forall i, j :: 0 <= i < j < |s| ==> s[i] != s[j]
  }

  /** The lists hold just the sends of their phase. */
  ghost predicate Listed(s: seq<nat>, phases: Phases, p: Phase)
  {
    Distinct(s) && forall id :: id in s <==> id in phases && phases[id] == p
  }

  ghost predicate Moving(transit: set<nat>, phases: Phases)
  {
    forall id :: id in transit <==> id in phases && InTransit(phases[id])
  }

  /** What was sent is on the wire or settled. */
  ghost predicate SentOk(order: seq<nat>, failed: set<nat>, phases: Phases)
  {
    && (forall id | id in failed :: id in order)
    && forall id | id in order :: id in phases && (phases[id] == Sent || Settled(phases[id]))
  }

  /** What is settled stays as it is. */
  ghost predicate Keeps(phases: Phases, before: Phases)
  {
    forall id | id in before :: id in phases && (Settled(before[id]) ==> phases[id] == before[id])
  }

  /** Everyone who waits runs on. */
  ghost function Wake(phases: Phases): Phases
  {
    map id | id in phases :: if phases[id] == Waiting then Woken else phases[id]
  }

  /** Everything on the wire is rejected. */
  ghost function RejectSent(phases: Phases): Phases
  {
    map id | id in phases :: if phases[id] == Sent then Rejected else phases[id]
  }

  /** `s` without the elements of `gone`, in order. */
  ghost function Kept(s: seq<nat>, gone: set<nat>): seq<nat>
  {
    if s == [] then []
    else Kept(s[..|s| - 1], gone) + if s[|s| - 1] in gone then [] else [s[|s| - 1]]
  }

  lemma {:induction false} ListedMore(s: seq<nat>, phases: Phases, p: Phase, id: nat)
    requires Listed(s, phases, p) && (id in phases ==> phases[id] != p)
    ensures Listed(s + [id], phases[id := p], p)
  {
  }

  lemma {:induction false} ListedSame(s: seq<nat>, phases: Phases, p: Phase, id: nat, q: Phase)
    requires Listed(s, phases, p) && (id in phases ==> phases[id] != p) && q != p
    ensures Listed(s, phases[id := q], p)
  {
  }

  lemma {:induction false} ListedLess(s: seq<nat>, phases: Phases, p: Phase, i: nat, q: Phase)
    requires Listed(s, phases, p) && i < |s| && q != p
    ensures s[i] in phases && phases[s[i]] == p && Listed(s[..i] + s[i + 1..], phases[s[i] := q], p)
    ensures i == 0 ==> s[..i] + s[i + 1..] == s[1..]
  {
    assert s[i] in s;
    Without(s, i, s[i]);
  }

  lemma {:induction false} SentSame(order: seq<nat>, failed: set<nat>, phases: Phases, id: nat, p: Phase)
    requires SentOk(order, failed, phases)
    requires id !in phases || InTransit(phases[id]) || phases[id] == Waiting || Settled(p)
    ensures SentOk(order, failed, phases[id := p])
    ensures id !in phases || InTransit(phases[id]) || phases[id] == Waiting ==> id !in order && id !in failed
  {
  }

  lemma {:induction false} NotMoving(transit: set<nat>, phases: Phases, id: nat)
    requires Moving(transit, phases)
    ensures id !in phases ==> id !in transit && transit - {id} == transit
    ensures id in phases ==> (id in transit <==> InTransit(phases[id]))
  {
  }

  lemma {:induction false} MovingIs(transit: set<nat>, phases: Phases, id: nat, p: Phase)
    requires Moving(transit, phases)
    ensures Moving(if InTransit(p) then transit + {id} else transit - {id}, phases[id := p])
  {
  }

  lemma {:induction false} KeptAll(s: seq<nat>, gone: set<nat>)
    requires forall x | x in s :: x !in gone
    ensures Kept(s, gone) == s
  {
    if s != [] {
      KeptAll(s[..|s| - 1], gone);
      assert s == s[..|s| - 1] + [s[|s| - 1]];
    }
  }

  lemma {:induction false} KeptJoin(s: seq<nat>, t: seq<nat>, gone: set<nat>)
    ensures Kept(s + t, gone) == Kept(s, gone) + Kept(t, gone)
    decreases |t|
  {
    if t == [] {
      assert s + t == s;
    } else {
      assert (s + t)[..|s + t| - 1] == s + t[..|t| - 1];
      KeptJoin(s, t[..|t| - 1], gone);
    }
  }

  lemma {:induction false} KeptTwice(s: seq<nat>, a: set<nat>, b: set<nat>)
    ensures Kept(s, a + b) == Kept(Kept(s, a), b)
  {
    if s != [] {
      var n := |s| - 1;
      KeptTwice(s[..n], a, b);
      KeptJoin(Kept(s[..n], a), if s[n] in a then [] else [s[n]], b);
      KeptOne(s[n], b);
    }
  }

  lemma KeptOne(x: nat, gone: set<nat>)
    ensures Kept([x], gone) == if x in gone then [] else [x]
  {
    assert [x][..0] == [];
  }

  lemma {:induction false} KeptMid(a: seq<nat>, x: nat, b: seq<nat>)
    requires x !in a && x !in b
    ensures Kept(a + ([x] + b), {x}) == a + b
  {
    hide Kept;
    KeptJoin(a, [x] + b, {x});
    KeptJoin([x], b, {x});
    KeptOne(x, {x});
    KeptAll(a, {x});
    KeptAll(b, {x});
  }

  /** Taking out the only occurrence of an element. */
  lemma {:induction false} KeptCut(s: seq<nat>, i: nat)
    requires Distinct(s) && i < |s|
    ensures s[..i] + s[i + 1..] == Kept(s, {s[i]})
  {
    hide Kept;
    assert s == s[..i] + ([s[i]] + s[i + 1..]);
    KeptMid(s[..i], s[i], s[i + 1..]);
  }

  /** Taking one element out. */
  lemma {:induction false} Without(s: seq<nat>, i: nat, id: nat)
    requires Distinct(s) && i < |s| && s[i] == id
    ensures var t := s[..i] + s[i + 1..]; Distinct(t) && id !in t && forall x | x != id :: x in t <==> x in s
    ensures i == 0 ==> s[..i] + s[i + 1..] == s[1..]
  {
    var t := s[..i] + s[i + 1..];
    forall x | x in s && x != id
      ensures x in t
    {
      var j :| 0 <= j < |s| && s[j] == x;
      assert t[if j < i then j else j - 1] == x;
    }
  }

  class Stream {
    const max: nat
    var pending: seq<nat>
    var queued: seq<nat>
    var closed: bool
    var error: bool

    ghost var phases: Phases
    ghost var transit: set<nat>
    ghost var order: seq<nat>      // sent, in this order
    ghost var acked: seq<nat>      // resolved, in this order
    ghost var failed: set<nat>     // frames that failed before they left the socket
    ghost var stranded: bool       // a failed frame took the last slot from under someone who waits

    constructor (max: nat)
      ensures Valid() && this.max == max && phases == map[] && !closed && !error && failed == {} && !stranded
      ensures pending == queued == order == acked == [] && transit == {}
    {
      this.max := max;
      pending, queued, closed, error := [], [], false, false;
      phases, transit, order, acked, failed, stranded := map[], {}, [], [], {}, false;
    }

    /** No wakeup is lost: while someone waits, all slots are taken, or promised to senders on their way. */
    ghost predicate Covered()
      reads this
    {
      Live() && queued != [] ==> |pending| + |transit| >= max
    }

    /** Acks resolve sends in the order in which these were sent, failed frames left out. */
    ghost predicate InOrder()
      reads this
    {
      if error then acked <= Kept(order, failed) else Kept(order, failed) == acked + pending
    }

    ghost predicate Lists()
      reads this
    {
      && Listed(pending, phases, Sent) && Listed(queued, phases, Waiting)
      && Listed(acked, phases, Resolved) && Moving(transit, phases)
      && SentOk(order, failed, phases)
    }

    ghost predicate Valid()
      reads this
    {
      Lists() && (error ==> pending == [] && queued == []) && InOrder() && (!stranded ==> Covered())
    }

    ghost predicate Live()
      reads this
    {
      !error && !closed
    }

    // ---------------------------------------------------------------- a sender

    /** sendChunkData up to its first await: too large a chunk is refused, otherwise the slots are checked. */
    method Call(id: nat, size: nat)
      requires Valid() && id !in phases
      modifies this`queued, this`phases, this`transit
      ensures Valid() && (old(Covered()) ==> Covered())
      ensures id in phases && phases == old(phases)[id := phases[id]]
      ensures phases[id] == if size > 4104 then Rejected
                            else if |pending| >= max && Live() then Waiting else Passed
      ensures queued == if phases[id] == Waiting then old(queued) + [id] else old(queued)
      ensures transit == if phases[id] == Passed then old(transit) + {id} else old(transit)
    {
      hide Lists, InOrder, Listed, Moving;
      Unknown(id);
      Enter(id, if size - 8 > MAX_PAYLOAD_SIZE then Rejected else Woken);
      if size - 8 > MAX_PAYLOAD_SIZE {
        return;
      }
      CheckSlot(id);
    }

    lemma Unknown(id: nat)
      requires Valid() && id !in phases
      ensures id !in transit && transit + {id} - {id} == transit
    {
      NotMoving(transit, phases, id);
    }

    ghost method Enter(id: nat, p: Phase)
      requires Valid() && id !in phases && (p == Rejected || p == Woken)
      modifies this`phases, this`transit
      ensures Valid() && (old(Covered()) ==> Covered())
      ensures phases == old(phases)[id := p] && transit == if p == Woken then old(transit) + {id} else old(transit)
    {
      ListedSame(pending, phases, Sent, id, p);
      ListedSame(queued, phases, Waiting, id, p);
      ListedSame(acked, phases, Resolved, id, p);
      SentSame(order, failed, phases, id, p);
      MovingIs(transit, phases, id, p);
      NotMoving(transit, phases, id);
      hide Listed, Moving, SentOk, Kept;
      phases, transit := phases[id := p], if p == Woken then transit + {id} else transit - {id};
    }

    /** The loop of waitForSlot: wait when all slots are taken, otherwise pass. */
    method CheckSlot(id: nat)
      requires Valid() && id in phases && phases[id] == Woken
      modifies this`queued, this`phases, this`transit
      ensures Valid() && (old(Covered()) ==> Covered())
      ensures id in phases && phases == old(phases)[id := phases[id]]
      ensures phases[id] == if |pending| >= max && Live() then Waiting else Passed
      ensures queued == if phases[id] == Waiting then old(queued) + [id] else old(queued)
      ensures transit == if phases[id] == Waiting then old(transit) - {id} else old(transit)
    {
      hide Listed, Moving, SentOk, Kept;
      ghost var p := if |pending| >= max && !error && !closed then Waiting else Passed;
      ListedSame(pending, phases, Sent, id, p);
      ListedSame(acked, phases, Resolved, id, p);
      SentSame(order, failed, phases, id, p);
      MovingIs(transit, phases, id, p);
      NotMoving(transit, phases, id);
      if |pending| >= max && !error && !closed {
        ListedMore(queued, phases, Waiting, id);
        queued := queued + [id];
        phases, transit := phases[id := Waiting], transit - {id};
      } else {
        ListedSame(queued, phases, Waiting, id, Passed);
        assert transit + {id} == transit;
        phases := phases[id := Passed];
      }
    }

    /**
     * The rest of sendChunkData: on a stream that failed or closed the send is rejected, otherwise it
     * goes out.
     */
    method Proceed(id: nat)
      requires Valid() && id in phases && phases[id] == Passed
      modifies this`pending, this`phases, this`transit, this`order
      ensures Valid() && (old(Covered()) ==> Covered())
      ensures transit == old(transit) - {id} && phases == old(phases)[id := if Live() then Sent else Rejected]
      ensures pending == if Live() then old(pending) + [id] else old(pending)
      ensures order == if Live() then old(order) + [id] else old(order)
    {
      hide Listed, Moving, SentOk, Kept;
      ghost var p := if error || closed then Rejected else Sent;
      ListedSame(queued, phases, Waiting, id, p);
      ListedSame(acked, phases, Resolved, id, p);
      MovingIs(transit, phases, id, p);
      NotMoving(transit, phases, id);
      transit := transit - {id};
      if error || closed {
        ListedSame(pending, phases, Sent, id, Rejected);
        SentSame(order, failed, phases, id, Rejected);
        phases := phases[id := Rejected];
        return;
      }
      ListedMore(pending, phases, Sent, id);
      OrderSent(order, failed, phases, id);
      pending := pending + [id];
      order := order + [id];
      phases := phases[id := Sent];
    }

    /**
     * The socket reports that the frame could not be sent: its entry is taken out and the send
     * rejected. No slot is released, which loses a wakeup exactly when someone waits and the frame
     * held the last slot that was taken or promised.
     */
    method SendFailed(id: nat)
      requires Valid() && id in order
      modifies this`pending, this`phases, this`failed, this`stranded
      ensures Valid() && pending == Kept(old(pending), {id})
      ensures id in old(pending) ==> phases == old(phases)[id := Rejected] && failed == old(failed) + {id}
      ensures id !in old(pending) ==> phases == old(phases) && failed == old(failed) && stranded == old(stranded)
      ensures id in old(pending) && old(Covered()) ==>
                (!Covered() <==> old(Live() && queued != [] && |pending| + |transit| == max))
      ensures id in old(pending) ==>
                stranded == old(stranded || (Live() && queued != [] && |pending| + |transit| == max))
    {
      var idx := 0;
      while idx < |pending| && pending[idx] != id
        invariant idx <= |pending| && id !in pending[..idx]
      {
        idx := idx + 1;
      }
      if idx < |pending| {
        TakeOut(idx);
      } else {
        KeptAll(pending, {id});
      }
    }

    method TakeOut(idx: nat)
      requires Valid() && idx < |pending| && pending[idx] in order
      modifies this`pending, this`phases, this`failed, this`stranded
      ensures Valid() && pending == Kept(old(pending), {old(pending[idx])}) && |pending| == |old(pending)| - 1
      ensures phases == old(phases)[old(pending[idx]) := Rejected] && failed == old(failed) + {old(pending[idx])}
      ensures stranded == old(stranded || (Live() && queued != [] && |pending| + |transit| == max))
    {
      hide Listed, Moving, SentOk, Kept;
      ghost var id := pending[idx];
      RetireSent(pending, queued, acked, transit, phases, idx);
      NeverAcked(pending, acked, phases, idx);
      OrderTaken(order, failed, acked, pending, idx);
      SentRetired(order, failed, phases, id);
      stranded := stranded || (!error && !closed && queued != [] && |pending| + |transit| == max);
      pending := pending[..idx] + pending[idx + 1..];
      phases := phases[id := Rejected];
      failed := failed + {id};
    }

    // ---------------------------------------------------------------- the socket

    /** The oldest frame on the wire is acknowledged: its send resolves, and the first in the queue wakes. */
    method OnAck()
      requires Valid()
      modifies this`pending, this`queued, this`error, this`phases, this`transit, this`acked
      ensures Valid() && Keeps(phases, old(phases)) && (old(Covered()) ==> Covered())
      ensures old(pending) == [] ==> error && acked == old(acked) && queued == pending == []
      ensures old(pending) != [] ==>
                error == old(error) && acked == old(acked) + [old(pending[0])] && pending == old(pending[1..])
      ensures old(pending) != [] && old(queued) == [] ==>
                queued == [] && transit == old(transit) && phases == old(phases)[old(pending[0]) := Resolved]
      ensures old(pending) != [] && old(queued) != [] ==>
                queued == old(queued[1..]) && transit == old(transit) + {old(queued[0])} &&
                phases == old(phases)[old(pending[0]) := Resolved][old(queued[0]) := Woken]
    {
      hide Listed, Moving, SentOk, Kept, Wake, RejectSent, Elements, Keeps, Distinct;
      if |pending| == 0 {
        Fail();
        return;
      }
      ResolveOldest();
      ReleaseSlot();
      ResolvedKeeps(old(phases), old(pending[0]), old(queued), phases);
    }

    method ResolveOldest()
      requires Valid() && pending != []
      modifies this`pending, this`phases, this`acked
      ensures Lists() && InOrder() && !error
      ensures acked == old(acked) + [old(pending[0])] && pending == old(pending[1..])
      ensures old(pending[0]) in old(phases) && old(phases)[old(pending[0])] == Sent
      ensures phases == old(phases)[old(pending[0]) := Resolved]
    {
      hide Listed, Moving, SentOk, Kept;
      var next := pending[0];
      ListedLess(pending, phases, Sent, 0, Resolved);
      ListedSame(queued, phases, Waiting, next, Resolved);
      ListedMore(acked, phases, Resolved, next);
      SentSame(order, failed, phases, next, Resolved);
      MovingIs(transit, phases, next, Resolved);
      NotMoving(transit, phases, next);
      assert transit - {next} == transit && acked + pending == (acked + [next]) + pending[1..];
      pending := pending[1..];
      phases := phases[next := Resolved];
      acked := acked + [next];
    }

    method ReleaseSlot()
      requires Lists()
      modifies this`queued, this`phases, this`transit
      ensures Lists()
      ensures old(queued) == [] ==> queued == [] && transit == old(transit) && phases == old(phases)
      ensures old(queued) != [] ==>
                queued == old(queued[1..]) && transit == old(transit) + {old(queued[0])} &&
                |transit| == |old(transit)| + 1 && phases == old(phases)[old(queued[0]) := Woken] &&
                old(queued[0]) in old(phases) && old(phases)[old(queued[0])] == Waiting
    {
      if |queued| > 0 {
        hide Listed, Moving, SentOk, Kept;
        var next := queued[0];
        ListedLess(queued, phases, Waiting, 0, Woken);
        ListedSame(pending, phases, Sent, next, Woken);
        ListedSame(acked, phases, Resolved, next, Woken);
        SentWaits(order, failed, phases, next, Woken);
        MovingIs(transit, phases, next, Woken);
        NotMoving(transit, phases, next);
        queued := queued[1..];
        phases, transit := phases[next := Woken], transit + {next};
      }
    }

    /** All that is on the wire is rejected, and everyone who waits is woken; a second failure does nothing. */
    method Fail()
      requires Valid()
      modifies this`pending, this`queued, this`error, this`phases, this`transit
      ensures Valid() && Keeps(phases, old(phases)) && error && pending == [] && queued == [] && Covered()
      ensures phases == if old(error) then old(phases) else Wake(RejectSent(old(phases)))
      ensures transit == if old(error) then old(transit) else old(transit) + Elements(old(queued))
    {
      if error {
        return;
      }
      hide Listed, Moving, Distinct, SentOk, Kept;
      error := true;
      RejectPending();
      ReleaseAllSlots();
    }

    method RejectPending()
      requires Lists()
      modifies this`pending, this`phases
      ensures Lists() && pending == [] && phases == RejectSent(old(phases)) && Keeps(phases, old(phases))
    {
      phases := RejectSent(phases);
      pending := [];
    }

    method ReleaseAllSlots()
      requires Lists()
      modifies this`queued, this`phases, this`transit
      ensures Lists() && queued == [] && phases == Wake(old(phases)) && Keeps(phases, old(phases))
      ensures transit == old(transit) + Elements(old(queued))
    {
      transit := transit + Elements(queued);
      phases := Wake(phases);
      queued := [];
    }

    /** A text frame, a socket error or the watchdog fails the stream. */
    method OnError()
      requires Valid()
      modifies this`pending, this`queued, this`error, this`phases, this`transit
      ensures Valid() && Keeps(phases, old(phases)) && error && pending == [] && queued == [] && Covered()
      ensures phases == if old(error) then old(phases) else Wake(RejectSent(old(phases)))
    {
      Fail();
    }

    /** What is on the wire is rejected, for the stream fails, and everyone who waits is woken. */
    method OnClose()
      requires Valid()
      modifies this`pending, this`queued, this`closed, this`error, this`phases, this`transit
      ensures Valid() && Keeps(phases, old(phases)) && closed && pending == [] && queued == [] && Covered()
      ensures error == old(error || pending != [])
      ensures phases == Wake(RejectSent(old(phases)))
    {
      if |pending| > 0 && !error {
        Fail();
        WakeAgain(old(phases));
      } else {
        NothingSent(pending, phases);
      }
      closed := true;
      ReleaseAllSlots();
    }

    method Close()
      requires Valid()
      modifies this`closed
      ensures Valid() && closed && Covered()
    {
      closed := true;
    }

    // ---------------------------------------------------------------- what a caller may rely on

    /** The n-th ack resolves the n-th of the sends whose frames did not fail. */
    lemma {:induction false} AcksAreFifo(n: nat)
      requires Valid() && n < |acked|
      ensures n < |Kept(order, failed)| && acked[n] == Kept(order, failed)[n] && acked[n] in phases
      ensures phases[acked[n]] == Resolved
      ensures failed == {} ==> Kept(order, failed) == order
    {
      assert acked[n] in acked;
      KeptAll(order, {});
    }

    /**
     * A sender waits with a slot free and nobody on the way to it only after a frame that held the
     * last slot failed while someone waited.
     */
    lemma {:induction false} NobodyStranded()
      requires Valid() && Live() && queued != [] && |pending| + |transit| < max
      ensures stranded
    {
      hide Listed, Moving, Kept;
    }

    /**
     * On a live stream with a slot at all, and unless a failed frame has lost a wakeup, an unsettled
     * send means that an ack is due or that some sender is about to run on.
     */
    lemma {:induction false} SomethingMoves(id: nat)
      requires Valid() && Live() && !stranded && max > 0 && id in phases && !Settled(phases[id])
      ensures pending != [] || transit != {}
    {
      NothingForgotten(id);
    }

    /** A send that is not settled is on the wire, in the queue, or about to run on. */
    lemma {:induction false} NothingForgotten(id: nat)
      requires Valid() && id in phases && !Settled(phases[id])
      ensures id in pending || id in queued || id in transit
      ensures error ==> id in transit
    {
    }
  }

  lemma ResolvedKeeps(before: Phases, id: nat, queued: seq<nat>, phases: Phases)
    requires id in before && before[id] == Sent
    requires queued == [] ==> phases == before[id := Resolved]
    requires queued != [] ==> queued[0] in before && queued[0] != id && before[queued[0]] == Waiting &&
                              phases == before[id := Resolved][queued[0] := Woken]
    ensures Keeps(phases, before)
  {
  }

  lemma SentWaits(order: seq<nat>, failed: set<nat>, phases: Phases, id: nat, p: Phase)
    requires SentOk(order, failed, phases) && id in phases && phases[id] == Waiting
    ensures SentOk(order, failed, phases[id := p])
  {
  }

  lemma WakeAgain(phases: Phases)
    ensures Wake(Wake(RejectSent(phases))) == Wake(RejectSent(phases))
  {
  }

  lemma NothingSent(pending: seq<nat>, phases: Phases)
    requires Listed(pending, phases, Sent) && pending == []
    ensures RejectSent(phases) == phases
  {
  }

  /**
   * A failed frame gives its slot to nobody: the second sender waits for ever on a live stream with
   * nothing on the wire.
   */
  method FailedFrameStrandsSender() returns (s: Stream)
    ensures s.Valid() && s.Live() && s.max == 1 && s.queued == [1] && s.pending == [] && s.transit == {}
    ensures !s.Covered() && s.failed == {0}
  {
    hide Listed, Moving, SentOk, Kept, Keeps, Wake, RejectSent, Settled, Elements;
    s := new Stream(1);
    s.Call(0, 8);
    s.Proceed(0);
    s.Call(1, 8);
    assert s.queued == [1] && s.pending == [0] && s.transit == {};
    KeptOne(0, {0});
    s.SendFailed(0);
  }

  /** A frame on the wire is rejected: the lists hold without it. */
  lemma {:induction false} RetireSent(pending: seq<nat>, queued: seq<nat>, acked: seq<nat>, transit: set<nat>,
      phases: Phases, i: nat)
    requires Listed(pending, phases, Sent) && Listed(queued, phases, Waiting) && Listed(acked, phases, Resolved)
    requires Moving(transit, phases) && i < |pending|
    ensures var after := phases[pending[i] := Rejected];
            && Listed(pending[..i] + pending[i + 1..], after, Sent) && Listed(queued, after, Waiting)
            && Listed(acked, after, Resolved) && Moving(transit, after)
  {
    hide Listed, Moving;
    ListedLess(pending, phases, Sent, i, Rejected);
    ListedSame(queued, phases, Waiting, pending[i], Rejected);
    ListedSame(acked, phases, Resolved, pending[i], Rejected);
    MovingIs(transit, phases, pending[i], Rejected);
    NotMoving(transit, phases, pending[i]);
    assert transit - {pending[i]} == transit;
  }

  lemma NeverAcked(pending: seq<nat>, acked: seq<nat>, phases: Phases, i: nat)
    requires Listed(pending, phases, Sent) && Listed(acked, phases, Resolved) && i < |pending|
    ensures Distinct(pending) && pending[i] !in acked
  {
    assert pending[i] in pending;
  }

  /** The order of the others stays. */
  lemma {:induction false} OrderTaken(order: seq<nat>, failed: set<nat>, acked: seq<nat>, pending: seq<nat>, i: nat)
    requires Distinct(pending) && i < |pending| && pending[i] !in acked
    ensures pending[..i] + pending[i + 1..] == Kept(pending, {pending[i]})
    ensures Kept(order, failed) == acked + pending ==>
              Kept(order, failed + {pending[i]}) == acked + (pending[..i] + pending[i + 1..])
  {
    hide Kept, Distinct;
    KeptCut(pending, i);
    KeptTwice(order, failed, {pending[i]});
    KeptJoin(acked, pending, {pending[i]});
    KeptAll(acked, {pending[i]});
  }

  lemma SentRetired(order: seq<nat>, failed: set<nat>, phases: Phases, id: nat)
    requires SentOk(order, failed, phases) && id in order
    ensures SentOk(order, failed + {id}, phases[id := Rejected])
  {
  }

  lemma {:induction false} OrderSent(order: seq<nat>, failed: set<nat>, phases: Phases, id: nat)
    requires SentOk(order, failed, phases) && id in phases && InTransit(phases[id])
    ensures SentOk(order + [id], failed, phases[id := Sent])
    ensures Kept(order + [id], failed) == Kept(order, failed) + [id]
  {
    hide Kept;
    assert id !in failed;
    KeptJoin(order, [id], failed);
    KeptOne(id, failed);
  }
}
