/**
 * What the proxy owes its client: when the connection is closed on it, that everything can be
 * delivered until then, and what the cache spares.
 */
module ProxyDelivery {
  import opened ProxySpec
  import opened ProxySafety

  // ---------------------------------------------------------------- when the client is closed

  /** The client leaves, no connection can be made, or upstream drops with nothing left to acknowledge. */
  predicate Closes(s: State, e: Event)
  {
    e.GiveUp? || e.ClientClosing? || e.ClientClose? || (e.UpstreamClose? && s.popped == |s.received|)
  }

  /** One event closes an open client exactly in these cases, and none opens it again. */
  lemma {:induction false} OpenAfter(s: State, e: Event)
    requires Inv(s) && Enabled(s, e)
    ensures Apply(s, e).clientOpen <==> s.clientOpen && !Closes(s, e)
  {
    hide Stored, Conn, InOrder, Unsend, Send, Pending, PendingIds;
    match e
    case ClientFrame(p) =>
      DrainKeeps(s.(received := s.received + [p], queue := s.queue + [Slot(|s.received|, p, Hit)]));
    case UpstreamAck => AckKeeps(s);
    case UpstreamClose => assert Drain(s.(up := Down, sent := [], got := 0)) == s.(up := Down, sent := [], got := 0);
    case _ =>
  }

  /** Draining takes entries from the queue, and nothing else but acks and the cache changes. */
  lemma {:induction false} DrainKeeps(s: State)
    ensures var r := Drain(s);
            && r.clientOpen == s.clientOpen && r.clientClosed == s.clientClosed && r.received == s.received
            && r.sent == s.sent && r.wire == s.wire && r.up == s.up && r.got == s.got && s.cache <= r.cache
            && r.canCache == s.canCache
    decreases |s.queue|
  {
    if s.queue != [] && Resolved(s.queue[0]) {
      DrainKeeps(Pop(s));
    }
  }

  lemma AckKeeps(s: State)
    requires s.got < |s.sent|
    ensures var r := OnAck(s);
            && r.clientOpen == s.clientOpen && r.clientClosed == s.clientClosed && r.received == s.received
            && r.sent == s.sent && r.wire == s.wire && r.up == s.up && r.got == s.got + 1 && s.cache <= r.cache
            && r.canCache == s.canCache
  {
    hide Drain;
    var t := s.(got := s.got + 1, durable := s.durable + {Sha256(s.sent[s.got])});
    var i := FirstSent(t.queue);
    if i < |t.queue| {
      DrainKeeps(t.(queue := t.queue[i := t.queue[i].(state := MissAcked)]));
    }
  }

  /** No event of the run closes the client. */
  predicate Undisturbed(s: State, events: seq<Event>)
    decreases |events|
  {
    events == [] ||
      (!Closes(s, events[0]) && (Enabled(s, events[0]) ==> Undisturbed(Apply(s, events[0]), events[1..])))
  }

  lemma {:induction false} OpenUntil(s: State, events: seq<Event>, r: State)
    requires Inv(s) && Run(s, events, r)
    ensures r.clientOpen <==> s.clientOpen && Undisturbed(s, events)
    decreases |events|
  {
    hide Inv, Apply, Closes, Enabled;
    if events != [] {
      OpenAfter(s, events[0]);
      EventKeepsInv(s, events[0]);
      OpenUntil(Apply(s, events[0]), events[1..], r);
      if !Undisturbed(Apply(s, events[0]), events[1..]) || !Apply(s, events[0]).clientOpen {
        assert !r.clientOpen;
      }
    }
  }

  /**
   * In every run the client is open to the end exactly if no event of it closed the client: a drop
   * with frames in flight does not. It then has its ack for every frame that is not waiting in the
   * queue, in order, and for all of them once an open upstream has acknowledged all it was sent.
   */
  lemma {:induction false} OpenAndServed(canCache: bool, cache: set<Hash>, durable: set<Hash>, events: seq<Event>,
      r: State)
    requires cache <= durable && Run(Start(canCache, cache, durable), events, r)
    ensures r.clientOpen <==> Undisturbed(Start(canCache, cache, durable), events)
    ensures r.clientOpen ==> |r.acks| + |r.queue| == |r.received| && forall i :: 0 <= i < |r.acks| ==> r.acks[i] == i
    ensures r.clientOpen && r.up.Open? && r.got == |r.sent| ==> |r.acks| == |r.received|
  {
    hide Run;
    OpenUntil(Start(canCache, cache, durable), events, r);
    EndToEnd(canCache, cache, durable, events, r);
    if r.up.Open? && r.got == |r.sent| {
      AllAcknowledged(canCache, cache, durable, events, r);
    }
  }

  // ---------------------------------------------------------------- everything can be delivered

  lemma {:induction false} RunOn(s: State, a: seq<Event>, m: State, b: seq<Event>, r: State)
    requires Run(s, a, m) && Run(m, b, r)
    ensures Run(s, a + b, r)
    decreases |a|
  {
    hide Apply, Enabled;
    if a == [] {
      assert a + b == b;
    } else {
      RunOn(Apply(s, a[0]), a[1..], m, b, r);
      assert (a + b)[1..] == a[1..] + b;
    }
  }

  lemma RunOne(s: State, e: Event)
    requires Enabled(s, e)
    ensures Run(s, [e], Apply(s, e))
  {
    hide Apply, Enabled;
    assert [e][1..] == [];
  }

  /** Upstream acknowledges all it was sent. */
  lemma {:induction false} AcksArrive(s: State) returns (events: seq<Event>, r: State)
    requires Inv(s) && s.clientOpen && s.up.Open?
    ensures Run(s, events, r) && forall e | e in events :: e == UpstreamAck
    ensures r.clientOpen && r.received == s.received && r.queue == [] && |r.acks| == |s.received|
    decreases |s.sent| - s.got
  {
    hide Stored, Apply;
    if s.got == |s.sent| {
      NoneSentBack(s.queue);
      assert s.queue == [];
      events, r := [], s;
    } else {
      var t := Apply(s, UpstreamAck);
      AckIs(s);
      AckKeeps(s);
      AckKeepsInv(s);
      RunOne(s, UpstreamAck);
      events, r := AcksArrive(t);
      RunOn(s, [UpstreamAck], t, events, r);
      events := [UpstreamAck] + events;
    }
  }

  lemma AckIs(s: State)
    requires s.got < |s.sent| && !s.up.Down?
    ensures Apply(s, UpstreamAck) == OnAck(s)
  {
    hide OnAck;
  }

  /**
   * Whatever has happened, as long as the client is open and waits for something: the connection is
   * replaced if need be, what waits is sent again, and with its acks the client has an ack for every frame.
   */
  lemma {:induction false} CanDeliver(s: State) returns (events: seq<Event>, r: State)
    requires Inv(s) && s.clientOpen && s.queue != []
    ensures Run(s, events, r) && forall e | e in events :: e == UpstreamAck || e == Connect || e == UpstreamClose
    ensures r.clientOpen && r.received == s.received && r.queue == [] && |r.acks| == |s.received|
  {
    hide Inv, Apply, Run;
    match s.up
    case Open => events, r := AcksArrive(s);
    case Down =>
      var t := Reconnects(s);
      events, r := AcksArrive(t);
      RunOn(s, [Connect], t, events, r);
      events := [Connect] + events;
    case Closing =>
      var d := Drops(s);
      var t := Reconnects(d);
      events, r := AcksArrive(t);
      RunOn(d, [Connect], t, events, r);
      RunOn(s, [UpstreamClose], d, [Connect] + events, r);
      events := [UpstreamClose] + ([Connect] + events);
  }

  lemma Reconnects(s: State) returns (t: State)
    requires Inv(s) && s.up.Down? && s.clientOpen
    ensures Run(s, [Connect], t) && Inv(t) && t.up.Open? && t.clientOpen && t.received == s.received
  {
    hide Inv, Pending, Send, PendingIds, Run;
    t := Apply(s, Connect);
    ConnectKeepsInv(s);
    RunOne(s, Connect);
  }

  lemma Drops(s: State) returns (t: State)
    requires Inv(s) && s.up.Closing? && s.clientOpen && s.queue != []
    ensures Run(s, [UpstreamClose], t) && Inv(t) && t.up.Down? && t.clientOpen && t.received == s.received
  {
    hide Stored, Conn, Unsend, Run;
    t := Apply(s, UpstreamClose);
    CloseKeepsInv(s);
    RunOne(s, UpstreamClose);
    assert Drain(s.(up := Down, sent := [], got := 0)) == s.(up := Down, sent := [], got := 0);
  }

  // ---------------------------------------------------------------- what the cache spares

  /**
   * With a cache, all that has left the queue is in it, and so is what the queue has as a hit; without
   * one there are no hits. Nothing that is not yet acknowledged was counted as sent before it came.
   */
  ghost predicate Caching(s: State)
  {
    && (if s.canCache then
          (forall i :: 0 <= i < s.popped && i < |s.received| ==> Sha256(s.received[i]) in s.cache) &&
          (forall i :: 0 <= i < |s.queue| && s.queue[i].state.Hit? ==> Sha256(s.queue[i].payload) in s.cache)
        else forall i :: 0 <= i < |s.queue| ==> !s.queue[i].state.Hit?)
    && forall x | x in s.wire :: x < |s.received|
  }

  lemma {:induction false} DrainCaches(s: State)
    requires Core(s) && Caching(s)
    ensures Caching(Drain(s))
    decreases |s.queue|
  {
    hide Stored, Conn, InOrder;
    if s.queue != [] && Resolved(s.queue[0]) {
      PopKeepsCore(s);
      DrainCaches(Pop(s));
    }
  }

  lemma {:induction false} FrameCaches(s: State, p: Payload)
    requires Inv(s) && Caching(s) && !s.clientClosed
    ensures Caching(OnClientFrame(s, p))
  {
    hide Conn, InOrder, Drain;
    if s.canCache && Sha256(p) in s.cache {
      var e := Slot(|s.received|, p, Hit);
      SnocTail(s.queue, s.popped, s.received, s.cache, s.durable, e);
      SnocConn(s.queue, s.up, s.sent, s.got, e);
      DrainCaches(s.(received := s.received + [p], queue := s.queue + [e]));
    }
  }

  lemma {:induction false} AckCaches(s: State)
    requires Inv(s) && Caching(s) && s.got < |s.sent|
    ensures Caching(OnAck(s))
  {
    hide Tail, Stored, Conn, InOrder, Drain;
    HeadIsSent(s);
    AckHead(s.queue, s.popped, s.received, s.cache, s.durable);
    AckConn(s.queue, s.up, s.sent, s.got);
    var t := s.(got := s.got + 1, durable := s.durable + {Sha256(s.sent[s.got])},
                queue := s.queue[0 := s.queue[0].(state := MissAcked)]);
    assert FirstSent(s.queue) == 0;
    DrainCaches(t);
  }

  lemma {:induction false} SendKeepsHits(q: seq<Slot>)
    ensures |Send(q)| == |q| && |Unsend(q)| == |q|
    ensures forall i :: 0 <= i < |q| ==> Send(q)[i].payload == q[i].payload && Send(q)[i].id == q[i].id &&
                                         (Send(q)[i].state.Hit? <==> q[i].state.Hit?)
    ensures forall i :: 0 <= i < |q| ==> Unsend(q)[i].payload == q[i].payload && Unsend(q)[i].id == q[i].id &&
                                         (Unsend(q)[i].state.Hit? <==> q[i].state.Hit?)
  {
    if q != [] {
      SendKeepsHits(q[1..]);
    }
  }

  lemma {:induction false} PendingIdsAre(q: seq<Slot>)
    ensures forall x | x in PendingIds(q) :: exists i :: 0 <= i < |q| && q[i].id == x && q[i].state.MissPending?
  {
    if q != [] {
      PendingIdsAre(q[1..]);
      forall x | x in PendingIds(q)
        ensures exists i :: 0 <= i < |q| && q[i].id == x && q[i].state.MissPending?
      {
        if x in PendingIds(q[1..]) {
          var i :| 0 <= i < |q| - 1 && q[1..][i].id == x && q[1..][i].state.MissPending?;
          assert q[i + 1].id == x;
        } else {
          assert q[0].id == x;
        }
      }
    }
  }

  lemma {:induction false} EventCaches(s: State, e: Event)
    requires Inv(s) && Caching(s) && Enabled(s, e)
    ensures Caching(Apply(s, e))
  {
    hide Stored, Conn, InOrder, OnClientFrame, OnAck, Drain, Send, Unsend, Pending, PendingIds;
    match e
    case ClientFrame(p) => FrameCaches(s, p);
    case UpstreamAck => AckCaches(s);
    case UpstreamClose =>
      DrainStays(s);
      SendKeepsHits(s.queue);
    case Connect =>
      SendKeepsHits(s.queue);
      PendingIdsAre(s.queue);
    case _ =>
  }

  lemma DrainStays(s: State)
    requires Inv(s)
    ensures Drain(s.(up := Down, sent := [], got := 0)) == s.(up := Down, sent := [], got := 0)
  {
  }

  lemma {:induction false} RunCaches(s: State, events: seq<Event>, r: State)
    requires Inv(s) && Caching(s) && Run(s, events, r)
    ensures Caching(r)
    decreases |events|
  {
    hide Inv, Caching, Apply, Enabled;
    if events != [] {
      EventKeepsInv(s, events[0]);
      EventCaches(s, events[0]);
      RunCaches(Apply(s, events[0]), events[1..], r);
    }
  }

  /** A frame that was never sent, and need not be: it has left the queue, or is a hit in it. */
  ghost predicate Spared(s: State, id: nat)
  {
    && id < |s.received| && id !in s.wire
    && (id < s.popped || (id - s.popped < |s.queue| && s.queue[id - s.popped].state.Hit?))
  }

  lemma {:induction false} DrainSpares(s: State, id: nat)
    requires Spared(s, id)
    ensures Spared(Drain(s), id)
    decreases |s.queue|
  {
    if s.queue != [] && Resolved(s.queue[0]) {
      DrainSpares(Pop(s), id);
    }
  }

  lemma {:induction false} EventSpares(s: State, e: Event, id: nat)
    requires Inv(s) && Enabled(s, e) && Spared(s, id)
    ensures Spared(Apply(s, e), id)
  {
    hide Inv, Spared, OnClientFrame, OnAck, OnUpstreamClose, OnConnect;
    match e
    case ClientFrame(p) => FrameSpares(s, p, id);
    case UpstreamAck => AckSpares(s, id);
    case UpstreamClose => CloseSpares(s, id);
    case Connect => ConnectSpares(s, id);
    case _ => OtherSpares(s, e, id);
  }

  lemma OtherSpares(s: State, e: Event, id: nat)
    requires Enabled(s, e) && Spared(s, id)
    requires !e.ClientFrame? && !e.UpstreamAck? && !e.UpstreamClose? && !e.Connect?
    ensures Spared(Apply(s, e), id)
  {
  }

  lemma {:induction false} FrameSpares(s: State, p: Payload, id: nat)
    requires Spared(s, id)
    ensures Spared(OnClientFrame(s, p), id)
  {
    hide Drain;
    DrainSpares(s.(received := s.received + [p], queue := s.queue + [Slot(|s.received|, p, Hit)]), id);
  }

  lemma {:induction false} AckSpares(s: State, id: nat)
    requires Inv(s) && s.got < |s.sent| && Spared(s, id)
    ensures Spared(OnAck(s), id)
  {
    hide Core, Drain;
    HeadIsSent(s);
    assert FirstSent(s.queue) == 0;
    var t := s.(got := s.got + 1, durable := s.durable + {Sha256(s.sent[s.got])},
                queue := s.queue[0 := s.queue[0].(state := MissAcked)]);
    DrainSpares(t, id);
  }

  lemma {:induction false} CloseSpares(s: State, id: nat)
    requires Inv(s) && Spared(s, id)
    ensures Spared(OnUpstreamClose(s), id)
  {
    hide Core, Drain, Unsend;
    DrainStays(s);
    SendKeepsHits(s.queue);
  }

  lemma {:induction false} ConnectSpares(s: State, id: nat)
    requires Inv(s) && Spared(s, id)
    ensures Spared(OnConnect(s), id)
  {
    hide Stored, Conn, InOrder, Send, Pending, PendingIds;
    SendKeepsHits(s.queue);
    PendingIdsAre(s.queue);
  }

  lemma {:induction false} RunSpares(s: State, events: seq<Event>, r: State, id: nat)
    requires Inv(s) && Run(s, events, r) && Spared(s, id)
    ensures Spared(r, id)
    decreases |events|
  {
    hide Inv, Spared, Apply, Enabled;
    if events != [] {
      EventKeepsInv(s, events[0]);
      EventSpares(s, events[0], id);
      RunSpares(Apply(s, events[0]), events[1..], r, id);
    }
  }

  lemma {:induction false} HitIsSpared(s: State, p: Payload, events: seq<Event>, r: State)
    requires Inv(s) && Caching(s) && !s.clientClosed && Run(OnClientFrame(s, p), events, r)
    requires s.canCache && Sha256(p) in s.cache
    ensures OnClientFrame(s, p).wire == s.wire && |s.received| !in r.wire
  {
    hide Stored, Conn, InOrder, Drain, Run;
    var t := s.(received := s.received + [p], queue := s.queue + [Slot(|s.received|, p, Hit)]);
    DrainKeeps(t);
    DrainSpares(t, |s.received|);
    FrameKeepsInv(s, p);
    RunSpares(OnClientFrame(s, p), events, r, |s.received|);
  }

  /**
   * In every run: a frame goes out as it comes exactly if upstream is open and it is not a hit, and a
   * hit is never sent later, on any connection. With a cache, every frame that has left the queue is in
   * it, acknowledged misses too.
   */
  lemma {:induction false} CacheSpares(canCache: bool, cache: set<Hash>, durable: set<Hash>, before: seq<Event>,
      m: State, p: Payload, after: seq<Event>, r: State)
    requires cache <= durable && Run(Start(canCache, cache, durable), before, m)
    requires !m.clientClosed && Run(OnClientFrame(m, p), after, r)
    ensures var hit := canCache && Sha256(p) in m.cache;
            && OnClientFrame(m, p).wire == (if m.up.Open? && !hit then m.wire + [|m.received|] else m.wire)
            && (hit ==> |m.received| !in r.wire)
    ensures canCache ==> r.popped <= |r.received| && forall i :: 0 <= i < r.popped ==> Sha256(r.received[i]) in r.cache
  {
    hide Run, OnClientFrame;
    var s := Start(canCache, cache, durable);
    RunKeepsInv(s, before, m);
    RunCaches(s, before, m);
    SameCache(s, before, m);
    FrameKeepsInv(m, p);
    FrameCaches(m, p);
    RunKeepsInv(OnClientFrame(m, p), after, r);
    RunCaches(OnClientFrame(m, p), after, r);
    FrameWire(m, p);
    SameCache(OnClientFrame(m, p), after, r);
    if canCache && Sha256(p) in m.cache {
      HitIsSpared(m, p, after, r);
    }
  }

  lemma FrameWire(s: State, p: Payload)
    ensures var r := OnClientFrame(s, p);
            && r.canCache == s.canCache
            && (!(s.canCache && Sha256(p) in s.cache) ==>
                  r.wire == if s.up.Open? then s.wire + [|s.received|] else s.wire)
  {
    hide Drain;
    DrainKeeps(s.(received := s.received + [p], queue := s.queue + [Slot(|s.received|, p, Hit)]));
  }

  /** Whether a session caches never changes. */
  lemma {:induction false} SameCache(s: State, events: seq<Event>, r: State)
    requires Run(s, events, r)
    ensures r.canCache == s.canCache
    decreases |events|
  {
    if events != [] {
      hide Drain;
      SameCacheStep(s, events[0]);
      SameCache(Apply(s, events[0]), events[1..], r);
    }
  }

  lemma SameCacheStep(s: State, e: Event)
    requires Enabled(s, e)
    ensures Apply(s, e).canCache == s.canCache
  {
    hide Drain, OnClientFrame, OnAck, Send, Unsend, Pending, PendingIds;
    match e
    case ClientFrame(p) => FrameWire(s, p);
    case UpstreamAck => AckKeeps(s);
    case UpstreamClose => DrainKeeps(s.(up := Down, sent := [], got := 0));
    case _ =>
  }
}
