/** One proxied WebSocket session, with its handlers as methods. */
module ProxySession {
  import opened ProxySpec
  import opened ProxySafety
  import opened ProxyDelivery

  class Session {
    const canCache: bool
    var queue: seq<Slot>
    var upstream: Upstream
    var clientOpen: bool
    var clientClosed: bool
    var cache: set<Hash>

    // histories
    ghost var received: seq<Payload>
    ghost var acks: seq<nat>
    ghost var popped: nat
    ghost var sent: seq<Payload>
    ghost var got: nat
    ghost var wire: seq<nat>
    ghost var durable: set<Hash>

    // how many binary frames came from the client
    var frameCount: nat

    ghost function View(): State
      reads this
    {
      State(canCache, queue, upstream, clientOpen, clientClosed, cache, received, acks, popped, sent, got, wire,
            durable)
    }

    ghost predicate Valid()
      reads this
    {
      Inv(View()) && frameCount == |received|
    }

    constructor (canCache: bool, cache: set<Hash>, ghost durable: set<Hash>)
      requires cache <= durable
      ensures Valid() && View() == Start(canCache, cache, durable)
    {
      this.canCache, this.cache, this.durable := canCache, cache, durable;
      queue, upstream, clientOpen, clientClosed := [], Down, true, false;
      received, acks, popped, sent, got, wire, frameCount := [], [], 0, [], 0, [], 0;
    }

    method DrainQueue()
      modifies this
      ensures View() == Drain(old(View())) && frameCount == old(frameCount)
    {
      while queue != [] && Resolved(queue[0])
        invariant Drain(View()) == Drain(old(View())) && frameCount == old(frameCount)
        decreases |queue|
      {
        ghost var before := View();
        var entry := queue[0];
        queue := queue[1..];
        popped := popped + 1;
        if entry.state.MissAcked? && canCache {
          cache := cache + {Sha256(entry.payload)};
        }
        if clientOpen {
          acks := acks + [entry.id];
        }
        assert View() == Pop(before);
      }
    }

    /** A binary frame from the client. */
    method OnClientMessage(payload: Payload)
      requires Valid() && !clientClosed
      modifies this
      ensures Valid() && View() == Apply(old(View()), ClientFrame(payload))
    {
      hide Inv, Drain;
      ghost var before := View();
      FrameKeepsInv(before, payload);
      var id := frameCount;
      frameCount := frameCount + 1;
      received := received + [payload];
      if canCache && Sha256(payload) in cache {
        queue := queue + [Slot(id, payload, Hit)];
        DrainQueue();
      } else {
        var connected := upstream.Open?;
        queue := queue + [Slot(id, payload, if connected then MissSent else MissPending)];
        if connected {
          sent, wire := sent + [payload], wire + [id];
        }
      }
      FrameCounted(before, payload);
    }

    /** An ack from upstream. */
    method OnUpstreamMessage()
      requires Valid() && got < |sent| && !upstream.Down?
      modifies this
      ensures Valid() && View() == Apply(old(View()), UpstreamAck)
    {
      ghost var before := View();
      AckKeepsInv(before);
      AckCounted(before);
      var i := 0;
      while i < |queue| && !queue[i].state.MissSent?
        invariant 0 <= i <= |queue| && FirstSent(queue) == i + FirstSent(queue[i..])
      {
        assert queue[i..][1..] == queue[i + 1..];
        i := i + 1;
      }
      durable := durable + {Sha256(sent[got])};
      got := got + 1;
      if i < |queue| {
        queue := queue[i := queue[i].(state := MissAcked)];
        DrainQueue();
      }
    }

    /** Everything in flight is to be sent again. */
    method UnsendAll()
      modifies this`queue
      ensures queue == Unsend(old(queue))
    {
      ghost var q := queue;
      var i := 0;
      while i < |queue|
        invariant 0 <= i <= |queue| == |q| && queue[i..] == q[i..]
        invariant Unsend(q) == queue[..i] + Unsend(q[i..])
      {
        assert q[i..][1..] == q[i + 1..] && queue[i] == q[i..][0];
        if queue[i].state.MissSent? {
          queue := queue[i := queue[i].(state := MissPending)];
        }
        i := i + 1;
      }
    }

    method OnUpstreamClose()
      requires Valid() && !upstream.Down?
      modifies this
      ensures Valid() && View() == Apply(old(View()), UpstreamClose)
      ensures clientOpen <==> old(clientOpen) && old(popped) < |received|
    {
      hide Inv, Unsend, Drain;
      ghost var before := View();
      OpenAfter(before, UpstreamClose);
      Unpopped(before);
      CloseKeepsInv(before);
      CloseCounted(before);
      if clientClosed {
        upstream := Closing;
        return;
      }
      upstream := Down;
      sent, got := [], 0;
      DrainQueue();
      if queue == [] {
        clientOpen := false;
        return;
      }
      UnsendAll();
    }

    /** Sends everything that waits, in queue order. */
    method Replay()
      modifies this`queue, this`sent, this`wire
      ensures queue == Send(old(queue)) && sent == old(sent) + Pending(old(queue))
      ensures wire == old(wire) + PendingIds(old(queue))
    {
      hide Send, Pending, PendingIds;
      ghost var q, before, ids := queue, sent, wire;
      NothingSent(q);
      var i := 0;
      while i < |queue|
        invariant 0 <= i <= |queue| == |q| && queue == Send(q[..i]) + q[i..]
        invariant sent == before + Pending(q[..i]) && wire == ids + PendingIds(q[..i])
      {
        SendNext(q, i);
        OneReplaced(Send(q[..i]), q[i..], q[i].(state := MissSent));
        if queue[i].state.MissPending? {
          sent, wire := sent + [queue[i].payload], wire + [queue[i].id];
          queue := queue[i := queue[i].(state := MissSent)];
        }
        i := i + 1;
      }
      assert q[..i] == q && q[i..] == [];
    }

    /** A connection attempt succeeded. */
    method OnConnected()
      requires Valid() && upstream.Down?
      modifies this
      ensures Valid() && View() == Apply(old(View()), Connect)
    {
      hide Inv, Send, Pending, PendingIds;
      ConnectKeepsInv(View());
      upstream := Open;
      sent, got := [], 0;
      Replay();
      assert [] + Pending(old(queue)) == Pending(old(queue));
    }

    method OnUpstreamClosing()
      requires Valid() && upstream.Open?
      modifies this
      ensures Valid() && View() == Apply(old(View()), UpstreamClosing)
    {
      OtherKeepsInv(View(), UpstreamClosing);
      upstream := Closing;
    }

    method OnClientClose()
      requires Valid()
      modifies this
      ensures Valid() && View() == Apply(old(View()), ClientClose)
    {
      OtherKeepsInv(View(), ClientClose);
      clientOpen, clientClosed := false, true;
    }
  }

  lemma NothingSent(q: seq<Slot>)
    ensures Send(q[..0]) == [] && Pending(q[..0]) == [] && PendingIds(q[..0]) == [] && q[0..] == q
  {
  }

  lemma Grouped<T>(a: seq<T>, b: seq<T>, c: seq<T>)
    ensures a + b + c == a + (b + c)
  {
  }

  function AsSent(e: Slot): Slot
  {
    if e.state.MissPending? then e.(state := MissSent) else e
  }

  function PayloadIfPending(e: Slot): seq<Payload>
  {
    if e.state.MissPending? then [e.payload] else []
  }

  function IdIfPending(e: Slot): seq<nat>
  {
    if e.state.MissPending? then [e.id] else []
  }

  lemma SendStep(q: seq<Slot>)
    ensures Send(q) == if q == [] then [] else [AsSent(q[0])] + Send(q[1..])
  {
  }

  lemma {:induction false} SendSnoc(q: seq<Slot>, e: Slot)
    ensures Send(q + [e]) == Send(q) + [AsSent(e)]
  {
    hide Send;
    SendStep(q);
    SendStep(q + [e]);
    if q == [] {
      SendStep([]);
      assert q + [e] == [e] && [e][1..] == [];
    } else {
      assert (q + [e])[0] == q[0] && (q + [e])[1..] == q[1..] + [e];
      SendSnoc(q[1..], e);
      Grouped([AsSent(q[0])], Send(q[1..]), [AsSent(e)]);
    }
  }

  lemma PendingStep(q: seq<Slot>)
    ensures Pending(q) == if q == [] then [] else PayloadIfPending(q[0]) + Pending(q[1..])
  {
  }

  lemma {:induction false} PendingSnoc(q: seq<Slot>, e: Slot)
    ensures Pending(q + [e]) == Pending(q) + PayloadIfPending(e)
  {
    hide Pending;
    PendingStep(q);
    PendingStep(q + [e]);
    if q == [] {
      PendingStep([]);
      assert q + [e] == [e] && [e][1..] == [];
    } else {
      assert (q + [e])[0] == q[0] && (q + [e])[1..] == q[1..] + [e];
      PendingSnoc(q[1..], e);
      Grouped(PayloadIfPending(q[0]), Pending(q[1..]), PayloadIfPending(e));
    }
  }

  lemma PendingIdsStep(q: seq<Slot>)
    ensures PendingIds(q) == if q == [] then [] else IdIfPending(q[0]) + PendingIds(q[1..])
  {
  }

  lemma {:induction false} IdsSnoc(q: seq<Slot>, e: Slot)
    ensures PendingIds(q + [e]) == PendingIds(q) + IdIfPending(e)
  {
    hide PendingIds;
    PendingIdsStep(q);
    PendingIdsStep(q + [e]);
    if q == [] {
      PendingIdsStep([]);
      assert q + [e] == [e] && [e][1..] == [];
    } else {
      assert (q + [e])[0] == q[0] && (q + [e])[1..] == q[1..] + [e];
      IdsSnoc(q[1..], e);
      Grouped(IdIfPending(q[0]), PendingIds(q[1..]), IdIfPending(e));
    }
  }

  lemma OneReplaced(a: seq<Slot>, b: seq<Slot>, x: Slot)
    requires b != []
    ensures (a + b)[|a|] == b[0] && (a + b)[|a| := x] == a + [x] + b[1..] && a + b == a + [b[0]] + b[1..]
  {
  }

  lemma SendSize(q: seq<Slot>)
    ensures |Send(q)| == |q|
  {
    if q != [] {
      SendSize(q[1..]);
    }
  }

  /** Replaying one entry more. */
  lemma {:induction false} SendNext(q: seq<Slot>, i: nat)
    requires i < |q|
    ensures |Send(q[..i])| == i && q[i..] == [q[i]] + q[i + 1..]
    ensures Send(q[..i + 1]) == Send(q[..i]) + [AsSent(q[i])]
    ensures Pending(q[..i + 1]) == Pending(q[..i]) + PayloadIfPending(q[i])
    ensures PendingIds(q[..i + 1]) == PendingIds(q[..i]) + IdIfPending(q[i])
  {
    hide Send, Pending, PendingIds;
    assert q[..i + 1] == q[..i] + [q[i]];
    SendSnoc(q[..i], q[i]);
    PendingSnoc(q[..i], q[i]);
    IdsSnoc(q[..i], q[i]);
    SendSize(q[..i]);
  }

  lemma {:induction false} DrainReceives(s: State)
    ensures Drain(s).received == s.received
    decreases |s.queue|
  {
    if s.queue != [] && Resolved(s.queue[0]) {
      DrainReceives(Pop(s));
    }
  }

  lemma FrameCounted(s: State, p: Payload)
    ensures OnClientFrame(s, p).received == s.received + [p]
  {
    DrainReceives(s.(received := s.received + [p], queue := s.queue + [Slot(|s.received|, p, Hit)]));
  }

  lemma Unpopped(s: State)
    requires Inv(s)
    ensures s.popped <= |s.received|
  {
  }

  lemma CloseCounted(s: State)
    ensures OnUpstreamClose(s).received == s.received
  {
    DrainReceives(s.(up := Down, sent := [], got := 0));
  }

  lemma AckCounted(s: State)
    requires s.got < |s.sent|
    ensures OnAck(s).received == s.received
  {
    var t := s.(got := s.got + 1, durable := s.durable + {Sha256(s.sent[s.got])});
    var i := FirstSent(t.queue);
    if i < |t.queue| {
      DrainReceives(t.(queue := t.queue[i := t.queue[i].(state := MissAcked)]));
    }
  }
}
