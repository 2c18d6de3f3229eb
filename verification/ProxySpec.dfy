/**
 * The chunk-stream proxy as a state machine: frames from the client, acks and drops from upstream,
 * reconnects with replay. Histories record what was received, acknowledged, sent and stored.
 */
module ProxySpec {
  type Payload = seq<bv8>

  /** The digest of a frame; equal digests mean equal frames. */
  datatype Hash = Sha256(payload: Payload)

  datatype EntryState = Hit | MissPending | MissSent | MissAcked

  /** A queue entry; `id` is the position of its frame among those received. */
  datatype Slot = Slot(id: nat, payload: Payload, state: EntryState)

  datatype Upstream = Down | Open | Closing

  datatype State = State(
    canCache: bool,
    queue: seq<Slot>,
    up: Upstream,
    clientOpen: bool,
    clientClosed: bool,
    cache: set<Hash>,
    received: seq<Payload>,   // binary frames from the client
    acks: seq<nat>,           // for which frames acks were sent to the client
    popped: nat,              // how many entries have left the queue
    sent: seq<Payload>,       // frames sent on the current upstream connection
    got: nat,                 // acks received on it
    wire: seq<nat>,           // which frames were sent, on whatever connection
    durable: set<Hash>        // digests of frames that upstream has acknowledged, to this session or another
  )

  function Start(canCache: bool, cache: set<Hash>, durable: set<Hash>): State
  {
    State(canCache, [], Down, true, false, cache, [], [], 0, [], 0, [], durable)
  }

  predicate Resolved(e: Slot)
  {
    e.state.Hit? || e.state.MissAcked?
  }

  /** drain: resolved entries leave from the head; each is acknowledged if the client is open. */
  function Drain(s: State): State
    decreases |s.queue|
  {
    if s.queue == [] || !Resolved(s.queue[0]) then s
    else Drain(Pop(s))
  }

  function Pop(s: State): State
    requires s.queue != []
  {
    var e := s.queue[0];
    s.(queue := s.queue[1..],
       popped := s.popped + 1,
       cache := if e.state.MissAcked? && s.canCache then s.cache + {Sha256(e.payload)} else s.cache,
       acks := if s.clientOpen then s.acks + [e.id] else s.acks)
  }

  function OnClientFrame(s: State, p: Payload): State
  {
    var t := s.(received := s.received + [p]);
    var id := |s.received|;
    if s.canCache && Sha256(p) in s.cache then
      Drain(t.(queue := t.queue + [Slot(id, p, Hit)]))
    else if s.up.Open? then
      t.(queue := t.queue + [Slot(id, p, MissSent)], sent := t.sent + [p], wire := t.wire + [id])
    else
      t.(queue := t.queue + [Slot(id, p, MissPending)])
  }

  /** The position of the first entry that was sent and not acknowledged. */
  function FirstSent(q: seq<Slot>): nat
  {
    if q == [] || q[0].state.MissSent? then 0 else 1 + FirstSent(q[1..])
  }

  /** Upstream acknowledges the oldest frame of its connection that it has not acknowledged yet. */
  function OnAck(s: State): State
    requires s.got < |s.sent|
  {
    var t := s.(got := s.got + 1, durable := s.durable + {Sha256(s.sent[s.got])});
    var i := FirstSent(t.queue);
    if i < |t.queue| then Drain(t.(queue := t.queue[i := t.queue[i].(state := MissAcked)]))
    else t
  }

  function Unsend(q: seq<Slot>): seq<Slot>
  {
    if q == [] then []
    else [if q[0].state.MissSent? then q[0].(state := MissPending) else q[0]] + Unsend(q[1..])
  }

  function OnUpstreamClose(s: State): State
  {
    if s.clientClosed then s.(up := Closing)
    else
      var t := Drain(s.(up := Down, sent := [], got := 0));
      if t.queue == [] then t.(clientOpen := false) else t.(queue := Unsend(t.queue))
  }

  function Pending(q: seq<Slot>): seq<Payload>
  {
    if q == [] then []
    else (if q[0].state.MissPending? then [q[0].payload] else []) + Pending(q[1..])
  }

  function PendingIds(q: seq<Slot>): seq<nat>
  {
    if q == [] then []
    else (if q[0].state.MissPending? then [q[0].id] else []) + PendingIds(q[1..])
  }

  function Send(q: seq<Slot>): seq<Slot>
  {
    if q == [] then []
    else [if q[0].state.MissPending? then q[0].(state := MissSent) else q[0]] + Send(q[1..])
  }

  /** A new connection: everything pending is replayed on it, in queue order. */
  function OnConnect(s: State): State
  {
    s.(up := Open, sent := Pending(s.queue), got := 0, wire := s.wire + PendingIds(s.queue), queue := Send(s.queue))
  }

  datatype Event =
    | ClientFrame(p: Payload)
    | UpstreamAck
    | UpstreamClosing            // the socket leaves its open state; its close event comes later
    | UpstreamClose
    | Connect
    | GiveUp                     // the last connection attempt failed
    | ClientClosing              // the client socket leaves its open state
    | ClientClose
    | ElsewhereStored(h: Hash)   // another session had a frame acknowledged, and cached it

  predicate Enabled(s: State, e: Event)
  {
    match e
    case ClientFrame(_) => !s.clientClosed
    case UpstreamAck => s.got < |s.sent| && !s.up.Down?
    case UpstreamClosing => s.up.Open?
    case UpstreamClose => !s.up.Down?
    case Connect => s.up.Down?
    case GiveUp => s.up.Down?
    case _ => true
  }

  function Apply(s: State, e: Event): State
    requires Enabled(s, e)
  {
    match e
    case ClientFrame(p) => OnClientFrame(s, p)
    case UpstreamAck => OnAck(s)
    case UpstreamClosing => s.(up := Closing)
    case UpstreamClose => OnUpstreamClose(s)
    case Connect => OnConnect(s)
    case GiveUp => s.(clientOpen := false)
    case ClientClosing => s.(clientOpen := false)
    case ClientClose => s.(clientOpen := false, clientClosed := true)
    case ElsewhereStored(h) => s.(durable := s.durable + {h}, cache := s.cache + {h})
  }

  /** The state after `events`, if each of them could happen. */
  ghost predicate Run(s: State, events: seq<Event>, r: State)
    decreases |events|
  {
    if events == [] then r == s
    else Enabled(s, events[0]) && Run(Apply(s, events[0]), events[1..], r)
  }
}
