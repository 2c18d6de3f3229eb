/** What holds in every run of the proxy. */
module ProxySafety {
  import opened ProxySpec

  function SentPayloads(q: seq<Slot>): seq<Payload>
  {
    if q == [] then []
    else (if q[0].state.MissSent? then [q[0].payload] else []) + SentPayloads(q[1..])
  }

  /** The queue is the tail of the received frames. */
  ghost predicate Tail(q: seq<Slot>, popped: nat, received: seq<Payload>)
  {
    && popped + |q| == |received|
    && forall i :: 0 <= i < |q| ==> q[i].id == popped + i && q[i].payload == received[popped + i]
  }

  /** The acks are for the frames before it, in order. */
  ghost predicate InOrder(acks: seq<nat>, popped: nat, open: bool)
  {
    && |acks| <= popped && (open ==> |acks| == popped)
    && forall i :: 0 <= i < |acks| ==> acks[i] == i
  }

  /** Only stored frames are cached, popped, hit or acknowledged. */
  ghost predicate Stored(q: seq<Slot>, popped: nat, received: seq<Payload>, cache: set<Hash>, durable: set<Hash>)
  {
    && cache <= durable
    && (forall i :: 0 <= i < popped && i < |received| ==> Sha256(received[i]) in durable)
    && (forall i :: 0 <= i < |q| && Resolved(q[i]) ==> Sha256(q[i].payload) in durable)
  }

  ghost predicate SentFirst(q: seq<Slot>)
  {
    forall i, j :: 0 <= i < j < |q| && q[i].state.MissPending? ==> !q[j].state.MissSent?
  }

  ghost predicate NonePending(q: seq<Slot>)
  {
    forall i :: 0 <= i < |q| ==> !q[i].state.MissPending?
  }

  /** What the current connection has been sent: what it has acknowledged, and what the queue waits for. */
  ghost predicate Conn(q: seq<Slot>, up: Upstream, sent: seq<Payload>, got: nat)
  {
    && SentFirst(q)
    && (up.Open? ==> NonePending(q))
    && got <= |sent| && sent[got..] == SentPayloads(q)
    && (up.Down? ==> sent == [])
  }

  /** What holds even while the head of the queue waits to be drained. */
  ghost predicate Core(s: State)
  {
    && Tail(s.queue, s.popped, s.received)
    && InOrder(s.acks, s.popped, s.clientOpen)
    && Stored(s.queue, s.popped, s.received, s.cache, s.durable)
    && Conn(s.queue, s.up, s.sent, s.got)
    && (forall i :: 0 < i < |s.queue| ==> !s.queue[i].state.MissAcked?)
    && (s.clientClosed ==> !s.clientOpen)
  }

  ghost predicate Inv(s: State)
  {
    Core(s) && (s.queue != [] ==> !Resolved(s.queue[0]))
  }

  // ---------------------------------------------------------------- draining

  lemma {:induction false} PopTail(q: seq<Slot>, popped: nat, received: seq<Payload>, cache: set<Hash>,
      durable: set<Hash>)
    requires q != [] && Resolved(q[0]) && Tail(q, popped, received) && Stored(q, popped, received, cache, durable)
    ensures Tail(q[1..], popped + 1, received) && q[0].id == popped
    ensures Stored(q[1..], popped + 1, received, cache, durable)
    ensures Stored(q[1..], popped + 1, received, cache + {Sha256(q[0].payload)}, durable)
  {
  }

  lemma {:induction false} PopConn(q: seq<Slot>, up: Upstream, sent: seq<Payload>, got: nat)
    requires q != [] && Resolved(q[0]) && Conn(q, up, sent, got)
    ensures Conn(q[1..], up, sent, got)
  {
  }

  lemma {:induction false} PopKeepsCore(s: State)
    requires Core(s) && s.queue != [] && Resolved(s.queue[0])
    ensures Core(Pop(s))
  {
    hide Tail, Stored, Conn;
    PopTail(s.queue, s.popped, s.received, s.cache, s.durable);
    PopConn(s.queue, s.up, s.sent, s.got);
  }

  lemma {:induction false} DrainRestores(s: State)
    requires Core(s)
    ensures Inv(Drain(s))
    decreases |s.queue|
  {
    hide Core;
    if s.queue != [] && Resolved(s.queue[0]) {
      PopKeepsCore(s);
      DrainRestores(Pop(s));
    }
  }

  // ---------------------------------------------------------------- events

  lemma {:induction false} SentSnoc(q: seq<Slot>, e: Slot)
    ensures SentPayloads(q + [e]) == SentPayloads(q) + if e.state.MissSent? then [e.payload] else []
  {
    if q == [] {
      assert [e][1..] == [];
    } else {
      assert (q + [e])[1..] == q[1..] + [e];
      SentSnoc(q[1..], e);
    }
  }

  lemma {:induction false} SnocTail(q: seq<Slot>, popped: nat, received: seq<Payload>, cache: set<Hash>,
      durable: set<Hash>, e: Slot)
    requires Tail(q, popped, received) && Stored(q, popped, received, cache, durable)
    requires e.id == |received| && (Resolved(e) ==> Sha256(e.payload) in durable)
    ensures Tail(q + [e], popped, received + [e.payload])
    ensures Stored(q + [e], popped, received + [e.payload], cache, durable)
  {
  }

  lemma {:induction false} SnocShape(q: seq<Slot>, up: Upstream, e: Slot)
    requires SentFirst(q) && (up.Open? ==> NonePending(q))
    requires e.state.Hit? || (if up.Open? then e.state.MissSent? else e.state.MissPending?)
    ensures SentFirst(q + [e]) && (up.Open? ==> NonePending(q + [e]))
  {
  }

  lemma {:induction false} SnocConn(q: seq<Slot>, up: Upstream, sent: seq<Payload>, got: nat, e: Slot)
    requires Conn(q, up, sent, got)
    requires e.state.Hit? || (if up.Open? then e.state.MissSent? else e.state.MissPending?)
    ensures Conn(q + [e], up, if e.state.MissSent? then sent + [e.payload] else sent, got)
  {
    hide SentFirst, NonePending, SentPayloads;
    SnocShape(q, up, e);
    SentSnoc(q, e);
    assert (sent + [e.payload])[got..] == sent[got..] + [e.payload];
  }

  lemma {:induction false} FrameKeepsInv(s: State, p: Payload)
    requires Inv(s) && !s.clientClosed
    ensures Inv(OnClientFrame(s, p))
  {
    hide Tail, Stored, Conn, InOrder, Drain;
    var e := Slot(|s.received|, p, if s.canCache && Sha256(p) in s.cache then Hit else if s.up.Open? then MissSent
      else MissPending);
    CachedIsDurable(s, p);
    SnocTail(s.queue, s.popped, s.received, s.cache, s.durable, e);
    SnocConn(s.queue, s.up, s.sent, s.got, e);
    var t := s.(received := s.received + [p], queue := s.queue + [e],
                sent := if e.state.MissSent? then s.sent + [p] else s.sent,
                wire := if e.state.MissSent? then s.wire + [|s.received|] else s.wire);
    assert Core(t);
    if e.state.Hit? {
      DrainRestores(t);
    }
  }

  lemma {:induction false} CachedIsDurable(s: State, p: Payload)
    requires Core(s)
    ensures Sha256(p) in s.cache ==> Sha256(p) in s.durable
  {
  }

  /** An unacknowledged frame on the current connection is the head of the queue. */
  lemma {:induction false} HeadIsSent(s: State)
    requires Inv(s) && s.got < |s.sent|
    ensures s.queue != [] && s.queue[0].state.MissSent? && s.queue[0].payload == s.sent[s.got]
    ensures s.sent[s.got + 1..] == SentPayloads(s.queue[1..])
  {
    assert s.sent[s.got..][0] == s.sent[s.got];
    assert s.sent[s.got..][1..] == s.sent[s.got + 1..];
    if s.queue != [] && s.queue[0].state.MissPending? {
      NoneSent(s.queue);
    }
  }

  lemma {:induction false} NoneSent(q: seq<Slot>)
    requires forall i :: 0 <= i < |q| ==> !q[i].state.MissSent?
    ensures SentPayloads(q) == []
  {
    if q != [] {
      NoneSent(q[1..]);
    }
  }

  lemma {:induction false} AckHead(q: seq<Slot>, popped: nat, received: seq<Payload>, cache: set<Hash>,
      durable: set<Hash>)
    requires q != [] && Tail(q, popped, received) && Stored(q, popped, received, cache, durable)
    ensures var r := q[0 := q[0].(state := MissAcked)];
            Tail(r, popped, received) && Stored(r, popped, received, cache, durable + {Sha256(q[0].payload)})
  {
  }

  lemma {:induction false} AckConn(q: seq<Slot>, up: Upstream, sent: seq<Payload>, got: nat)
    requires q != [] && Conn(q, up, sent, got) && got < |sent| && sent[got + 1..] == SentPayloads(q[1..])
    ensures Conn(q[0 := q[0].(state := MissAcked)], up, sent, got + 1)
  {
    var r := q[0 := q[0].(state := MissAcked)];
    assert r[1..] == q[1..];
  }

  lemma {:induction false} AckKeepsInv(s: State)
    requires Inv(s) && s.got < |s.sent|
    ensures Inv(OnAck(s))
  {
    hide Tail, Stored, Conn, InOrder, Drain;
    HeadIsSent(s);
    AckHead(s.queue, s.popped, s.received, s.cache, s.durable);
    AckConn(s.queue, s.up, s.sent, s.got);
    var t := s.(got := s.got + 1, durable := s.durable + {Sha256(s.sent[s.got])},
                queue := s.queue[0 := s.queue[0].(state := MissAcked)]);
    assert FirstSent(s.queue) == 0;
    assert Core(t);
    DrainRestores(t);
  }

  /** `r` is `q` with other states; what is resolved stays as it was. */
  ghost predicate Relabelled(q: seq<Slot>, r: seq<Slot>)
  {
    |r| == |q| && forall i :: 0 <= i < |q| ==>
      r[i].id == q[i].id && r[i].payload == q[i].payload && (Resolved(r[i]) || Resolved(q[i]) ==> r[i] == q[i])
  }

  lemma {:induction false} RelabelTail(q: seq<Slot>, r: seq<Slot>, popped: nat, received: seq<Payload>,
      cache: set<Hash>, durable: set<Hash>)
    requires Relabelled(q, r) && Tail(q, popped, received) && Stored(q, popped, received, cache, durable)
    ensures Tail(r, popped, received) && Stored(r, popped, received, cache, durable)
  {
  }

  lemma {:induction false} UnsendIs(q: seq<Slot>)
    ensures Relabelled(q, Unsend(q)) && SentPayloads(Unsend(q)) == []
    ensures forall i :: 0 <= i < |Unsend(q)| ==> !Unsend(q)[i].state.MissSent?
  {
    if q != [] {
      UnsendIs(q[1..]);
    }
  }

  lemma {:induction false} SendIs(q: seq<Slot>)
    requires forall i :: 0 <= i < |q| ==> !q[i].state.MissSent?
    ensures Relabelled(q, Send(q)) && SentPayloads(Send(q)) == Pending(q) && NonePending(Send(q))
  {
    if q != [] {
      SendIs(q[1..]);
    }
  }

  lemma {:induction false} CloseKeepsInv(s: State)
    requires Inv(s)
    ensures Inv(OnUpstreamClose(s))
  {
    hide Tail, Stored, InOrder, Unsend;
    if !s.clientClosed {
      var t := s.(up := Down, sent := [], got := 0);
      assert Drain(t) == t;
      OpenOrNot(s.acks, s.popped, s.clientOpen);
      UnsendIs(t.queue);
      RelabelTail(s.queue, Unsend(s.queue), s.popped, s.received, s.cache, s.durable);
    }
  }

  lemma {:induction false} OpenOrNot(acks: seq<nat>, popped: nat, open: bool)
    requires InOrder(acks, popped, open)
    ensures InOrder(acks, popped, false)
  {
  }

  lemma {:induction false} ConnectKeepsInv(s: State)
    requires Inv(s) && s.up.Down?
    ensures Inv(OnConnect(s))
  {
    hide Tail, Stored, InOrder, Send, Pending;
    NoneSentBack(s.queue);
    SendIs(s.queue);
    RelabelTail(s.queue, Send(s.queue), s.popped, s.received, s.cache, s.durable);
  }

  lemma {:induction false} NoneSentBack(q: seq<Slot>)
    requires SentPayloads(q) == []
    ensures forall i :: 0 <= i < |q| ==> !q[i].state.MissSent?
  {
    if q != [] {
      NoneSentBack(q[1..]);
    }
  }

  lemma {:induction false} OtherKeepsInv(s: State, e: Event)
    requires Inv(s) && Enabled(s, e)
    requires !e.ClientFrame? && !e.UpstreamAck? && !e.UpstreamClose? && !e.Connect?
    ensures Inv(Apply(s, e))
  {
  }

  lemma {:induction false} EventKeepsInv(s: State, e: Event)
    requires Inv(s) && Enabled(s, e)
    ensures Inv(Apply(s, e))
  {
    hide Inv, OnClientFrame, OnAck, OnUpstreamClose, OnConnect;
    match e
    case ClientFrame(p) => FrameKeepsInv(s, p);
    case UpstreamAck => AckKeepsInv(s);
    case UpstreamClose => CloseKeepsInv(s);
    case Connect => ConnectKeepsInv(s);
    case _ => OtherKeepsInv(s, e);
  }

  // ---------------------------------------------------------------- whole runs

  lemma {:induction false} RunKeepsInv(s: State, events: seq<Event>, r: State)
    requires Inv(s) && Run(s, events, r)
    ensures Inv(r)
    decreases |events|
  {
    if events != [] {
      EventKeepsInv(s, events[0]);
      RunKeepsInv(Apply(s, events[0]), events[1..], r);
    }
  }

  /**
   * In every run, with drops and replays: the i-th ack is for the i-th frame, acks and queue together
   * account for every frame while the client is open, and each acknowledged frame is stored upstream.
   */
  lemma {:induction false} EndToEnd(canCache: bool, cache: set<Hash>, durable: set<Hash>, events: seq<Event>, r: State)
    requires cache <= durable && Run(Start(canCache, cache, durable), events, r)
    ensures forall i :: 0 <= i < |r.acks| ==> r.acks[i] == i < |r.received| && Sha256(r.received[i]) in r.durable
    ensures r.clientOpen ==> |r.acks| + |r.queue| == |r.received|
    ensures r.cache <= r.durable
  {
    RunKeepsInv(Start(canCache, cache, durable), events, r);
  }

  /** In every run, the shape of the queue, and what the current connection has seen. */
  lemma {:induction false} QueueShape(canCache: bool, cache: set<Hash>, durable: set<Hash>, events: seq<Event>,
      r: State)
    requires cache <= durable && Run(Start(canCache, cache, durable), events, r)
    ensures r.queue != [] ==> !r.queue[0].state.Hit?
    ensures forall i :: 0 <= i < |r.queue| ==> !r.queue[i].state.MissAcked?
    ensures SentFirst(r.queue) && (r.up.Open? ==> NonePending(r.queue))
    ensures r.got <= |r.sent| && r.sent == r.sent[..r.got] + SentPayloads(r.queue)
  {
    RunKeepsInv(Start(canCache, cache, durable), events, r);
  }

  /** Once upstream is open and has acknowledged all it was sent, nothing is left waiting. */
  lemma {:induction false} AllAcknowledged(canCache: bool, cache: set<Hash>, durable: set<Hash>, events: seq<Event>,
      r: State)
    requires cache <= durable && Run(Start(canCache, cache, durable), events, r)
    requires r.up.Open? && r.got == |r.sent|
    ensures r.queue == [] && (r.clientOpen ==> |r.acks| == |r.received|)
  {
    RunKeepsInv(Start(canCache, cache, durable), events, r);
    NoneSentBack(r.queue);
  }
}
