/**
  One node's message bus (src/core/message_bus.cpp): numbering, the acknowledgement protocol and
  request/reply. A node id stands for the endpoint a packet comes from or goes to, handler results and the
  clock are parameters, and the class does to its fields what the functions on `Node` say.
*/
module MessageBus {
  import opened Words
  import opened Packets
  import Q = QosEngine
  import D = DedupWindow

  const SVC: string := "$SVC/"
  const REPLY_TTL_NS := 30_000_000_000

  /** A request waiting for its reply: pendingRequests_. */
  datatype Waiting = Waiting(service: string, payload: Bytes, qos: Q.Profile, deadline: nat, nextRetry: nat, intervalMs: nat)

  /** Who asked, and under which correlation id. */
  datatype Key = Key(source: uint16, corrId: uint32)
  datatype Cached = Cached(response: Bytes, level: Level, cachedAt: nat)

  datatype Outcome = Value(payload: Bytes) | TimedOut | NoProvider | Stopped | Broken

  datatype Node = Node(
    id: uint16, running: bool, seqCounter: uint32, corrCounter: uint32,
    pending: Q.Table, pendingRel: Q.Table, windows: map<uint16, D.Window>, touched: map<uint16, nat>,
    requests: Requests, cache: map<Key, Cached>, services: set<string>)

  /** What one onReceived does: packets sent, whether it routed, whether it ran the handler, whose promise it resolved. */
  datatype Effect = Effect(node: Node, sent: seq<Datagram>, routed: bool, ran: bool, resolved: Option<uint32>)

  /** The 64-bit key of the C++ reply cache. */
  function Packed(k: Key): (p: uint64) {
    k.source * WORD + k.corrId
  }

  lemma PackedInjective(a: Key, b: Key)
    requires Packed(a) == Packed(b)
    ensures a == b
  {
  }

  function ServiceName(topic: string): (s: string) {
    if SVC <= topic then topic[|SVC|..] else topic
  }

  lemma ServiceNameOf(service: string)
    ensures ServiceName(SVC + service) == service
  {
  }

  // ---------------------------------------------------------------- onReceived

  function WindowOf(n: Node, source: uint16): (w: D.Window) {
    if source in n.windows then n.windows[source] else D.FRESH
  }

  /** The duplicate filter answers "duplicate" to p. */
  predicate Filtered(n: Node, source: uint16, p: Packet)
    requires Numbered(p)
  {
    p.level == ExactlyOnce && D.Duplicate(WindowOf(n, source), p.seqId)
  }

  /** A received PUBLISH is handed to the router. */
  predicate Routed(n: Node, d: Datagram) {
    d.packet.Publish? && !Filtered(n, d.from, d.packet)
  }

  function Checked(n: Node, source: uint16, p: Packet, now: nat): (r: Node)
    requires Numbered(p)
  {
    if p.level == ExactlyOnce then
      n.(windows := n.windows[source := D.Marked(WindowOf(n, source), p.seqId)], touched := n.touched[source := now])
    else n
  }

  /** Only numbered packets pass the filter. */
  function Screened(n: Node, d: Datagram, now: nat): (r: Node) {
    if Numbered(d.packet) then Checked(n, d.from, d.packet, now) else n
  }

  function Numbering(n: Node): (r: Node) {
    n.(seqCounter := Wrap(n.seqCounter + 1))
  }

  /** Receiving changes no identity and no correlation counter, and takes at most one number. */
  predicate SameIdentity(n: Node, r: Node) {
    r.id == n.id && r.corrCounter == n.corrCounter && (r.seqCounter == n.seqCounter || r.seqCounter == Wrap(n.seqCounter + 1))
  }

  /** The handshake packets: they change the tables of unconfirmed packets and nothing else. */
  function Handshake(n: Node, d: Datagram, now: nat): (e: Effect)
    requires !Numbered(d.packet)
    ensures SameIdentity(n, e.node) && e.node.windows == n.windows && e.node.touched == n.touched
    ensures e.node.requests == n.requests && e.node.cache == n.cache
    ensures !e.routed && !e.ran && e.resolved == None
  {
    match d.packet
    case Ack(s) => Effect(n.(pending := n.pending - {s}), [], false, false, None)
    case Nack(s) =>
      if s in n.pending then
        Effect(n.(pending := n.pending[s := Q.Retried(n.pending[s], now)]), [n.pending[s].data], false, false, None)
      else Effect(n, [], false, false, None)
    case Pubrec(s) =>
      var rel := Datagram(n.id, d.from, Pubrel(s));
      Effect(n.(pending := n.pending - {s}, pendingRel := n.pendingRel[s := Q.Make(s, rel, Q.DefaultProfile(ExactlyOnce), now)]),
             [rel], false, false, None)
    case Pubrel(s) => Effect(n, [Datagram(n.id, d.from, Pubcomp(s))], false, false, None)
    case Pubcomp(s) => Effect(n.(pendingRel := n.pendingRel - {s}), [], false, false, None)
  }

  /** The whole of onReceived, and what it means for the handler, the reply cache and the waiting requests. */
  function Received(n: Node, d: Datagram, response: Bytes, now: nat): (e: Effect)
    ensures SameIdentity(n, e.node) && e.routed == Routed(n, d)
    ensures var m := Screened(n, d, now); e.node.windows == m.windows && e.node.touched == m.touched
    ensures e.ran <==> d.packet.Request? && !Filtered(n, d.from, d.packet) && Runs(n, d)
    ensures e.node.cache == if e.ran then n.cache[Key(d.from, d.packet.corrId) := Cached(response, d.packet.level, now)] else n.cache
    ensures e.resolved.Some? <==> d.packet.Reply? && !Filtered(n, d.from, d.packet) && d.packet.corrId in n.requests
    ensures e.resolved.Some? ==> e.resolved.value == d.packet.corrId
    ensures e.node.requests == if e.resolved.Some? then n.requests - {d.packet.corrId} else n.requests
  {
    match d.packet
    case Publish(s, level, _, _) =>
      Effect(Checked(n, d.from, d.packet, now), Confirmation(n.id, d.from, s, level), Routed(n, d), false, None)
    case Request(_, _, _, _, _) =>
      if Filtered(n, d.from, d.packet) then Effect(Checked(n, d.from, d.packet, now), [], false, false, None)
      else Served(Checked(n, d.from, d.packet, now), d, response, now)
    case Reply(_, _, _, _) =>
      if Filtered(n, d.from, d.packet) then Effect(Checked(n, d.from, d.packet, now), [], false, false, None)
      else Replied(Checked(n, d.from, d.packet, now), d)
    case _ => Handshake(n, d, now)
  }

  /** A PUBLISH is confirmed before anyone asks whether it is a duplicate. */
  function Confirmation(id: uint16, to: uint16, s: uint32, level: Level): (r: seq<Datagram>) {
    match level
    case ExactlyOnce => [Datagram(id, to, Pubrec(s))]
    case Reliable => [Datagram(id, to, Ack(s))]
    case BestEffort => []
  }

  function ReplyTo(n: Node, d: Datagram, level: Level, response: Bytes): (r: Datagram)
    requires d.packet.Request?
  {
    Datagram(n.id, d.from, Reply(n.seqCounter, level, d.packet.corrId, response))
  }

  predicate Runs(n: Node, d: Datagram)
    requires d.packet.Request?
  {
    Key(d.from, d.packet.corrId) !in n.cache && ServiceName(d.packet.topic) in n.services
  }

  /** The answer given before, sent once more under a fresh number. */
  function Repeated(n: Node, d: Datagram): (e: Effect)
    requires d.packet.Request? && Key(d.from, d.packet.corrId) in n.cache
    ensures SameIdentity(n, e.node) && e.node.windows == n.windows && e.node.touched == n.touched && e.node.requests == n.requests
  {
    var c := n.cache[Key(d.from, d.packet.corrId)];
    Effect(Numbering(n), [ReplyTo(n, d, c.level, c.response)], false, false, None)
  }

  /** The handler's answer, remembered before it is sent. */
  function Answered(n: Node, d: Datagram, response: Bytes, now: nat): (e: Effect)
    requires d.packet.Request?
    ensures SameIdentity(n, e.node) && e.node.windows == n.windows && e.node.touched == n.touched && e.node.requests == n.requests
  {
    var level, reply := d.packet.level, ReplyTo(n, d, d.packet.level, response);
    var r := Numbering(n).(cache := n.cache[Key(d.from, d.packet.corrId) := Cached(response, level, now)]);
    Effect(if AtLeastReliable(level) then Registered(r, reply, Q.DefaultProfile(level), now) else r, [reply], false, true, None)
  }

  function Served(n: Node, d: Datagram, response: Bytes, now: nat): (e: Effect)
    requires d.packet.Request?
    ensures SameIdentity(n, e.node) && e.node.windows == n.windows && e.node.touched == n.touched && e.node.requests == n.requests
    ensures !e.routed && e.resolved == None && (e.ran <==> Runs(n, d))
    ensures e.node.cache == if e.ran then n.cache[Key(d.from, d.packet.corrId) := Cached(response, d.packet.level, now)] else n.cache
  {
    if Key(d.from, d.packet.corrId) in n.cache then Repeated(n, d)
    else if Runs(n, d) then Answered(n, d, response, now)
    else Effect(n, [], false, false, None)
  }

  function Replied(n: Node, d: Datagram): (e: Effect)
    requires d.packet.Reply?
  {
    var c := d.packet.corrId;
    Effect(n.(requests := n.requests - {c}),
           if AtLeastReliable(d.packet.level) then [Datagram(n.id, d.from, Ack(d.packet.seqId))] else [],
           false, false, if c in n.requests then Some(c) else None)
  }

  // ---------------------------------------------------------------- publishing

  /** The table entry that makes d be sent again. */
  function Registered(n: Node, d: Datagram, qos: Q.Profile, now: nat): (r: Node) {
    n.(pending := n.pending[d.packet.seqId := Q.Make(d.packet.seqId, d, qos, now)])
  }

  function PublishTo(n: Node, to: uint16, qos: Q.Profile, topic: string, payload: Bytes): (d: Datagram) {
    Datagram(n.id, to, Publish(n.seqCounter, qos.level, topic, payload))
  }

  /** The packets for several targets, each with a number of its own, and the bus afterwards. */
  function Published(n: Node, targets: seq<uint16>, qos: Q.Profile, topic: string, payload: Bytes, now: nat): (r: (Node, seq<Datagram>))
    decreases |targets|
  {
    if targets == [] then (n, [])
    else
      var last := |targets| - 1;
      var (before, sent) := Published(n, targets[..last], qos, topic, payload, now);
      var d := PublishTo(before, targets[last], qos, topic, payload);
      (if AtLeastReliable(qos.level) then Registered(Numbering(before), d, qos, now) else Numbering(before), sent + [d])
  }

  /** Target k gets the message itself, from this node, under the k-th number from the counter on. */
  lemma {:induction false} PublishedPackets(n: Node, targets: seq<uint16>, qos: Q.Profile, topic: string, payload: Bytes, now: nat)
    ensures var r := Published(n, targets, qos, topic, payload, now);
            r.0.id == n.id && r.0.seqCounter == Wrap(n.seqCounter + |targets|) && |r.1| == |targets| &&
            forall k :: 0 <= k < |targets| ==>
              r.1[k] == Datagram(n.id, targets[k], Packet.Publish(Wrap(n.seqCounter + k), qos.level, topic, payload))
    decreases |targets|
  {
    if targets != [] {
      PublishedPackets(n, targets[..|targets| - 1], qos, topic, payload, now);
      WrapAdd(n.seqCounter + |targets| - 1, 1);
    } else {
      WrapSmall(n.seqCounter);
    }
  }

  /** A packet as it is registered: sent just now, not sent again yet. */
  function FreshEntry(d: Datagram, qos: Q.Profile, now: nat): (p: Q.Pending) {
    Q.Pending(d.packet.seqId, d, now, 0, qos.maxRetries, qos.retryIntervalMs)
  }

  predicate HasEntry(m: Q.Table, key: nat, d: Datagram, qos: Q.Profile, now: nat) {
    key in m && m[key] == FreshEntry(d, qos, now)
  }

  /** The table has got exactly these packets, under the numbers from `first` on, and is otherwise as it was. */
  predicate Grown(was: Q.Table, m: Q.Table, first: nat, sent: seq<Datagram>, qos: Q.Profile, now: nat) {
    (forall k :: 0 <= k < |sent| ==> HasEntry(m, first + k, sent[k], qos, now)) &&
    (forall s :: s in m && !(first <= s < first + |sent|) ==> s in was && m[s] == was[s]) &&
    (forall s :: s in was && !(first <= s < first + |sent|) ==> s in m)
  }

  lemma GrownMore(was: Q.Table, m: Q.Table, first: nat, sent: seq<Datagram>, d: Datagram, qos: Q.Profile, now: nat)
    requires Grown(was, m, first, sent, qos, now) && d.packet.seqId == first + |sent|
    ensures Grown(was, m[d.packet.seqId := FreshEntry(d, qos, now)], first, sent + [d], qos, now)
  {
    var more, r := sent + [d], m[d.packet.seqId := FreshEntry(d, qos, now)];
    forall k | 0 <= k < |more|
      ensures HasEntry(r, first + k, more[k], qos, now)
    {
      if k < |sent| { assert more[k] == sent[k] && HasEntry(m, first + k, sent[k], qos, now); }
    }
  }

  /** How far the call has come after some targets. */
  predicate PublishedSoFar(n: Node, r: (Node, seq<Datagram>), qos: Q.Profile, now: nat) {
    n.seqCounter + |r.1| < WORD && r.0 == n.(seqCounter := n.seqCounter + |r.1|, pending := r.0.pending) &&
    if qos.level == BestEffort then r.0.pending == n.pending
    else Grown(n.pending, r.0.pending, n.seqCounter, r.1, qos, now)
  }

  lemma PublishedOneMore(n: Node, r: (Node, seq<Datagram>), to: uint16, qos: Q.Profile, topic: string, payload: Bytes, now: nat)
    requires PublishedSoFar(n, r, qos, now) && n.seqCounter + |r.1| + 1 < WORD
    ensures var d := PublishTo(r.0, to, qos, topic, payload);
            PublishedSoFar(n, (if AtLeastReliable(qos.level) then Registered(Numbering(r.0), d, qos, now) else Numbering(r.0), r.1 + [d]), qos, now)
  {
    if qos.level != BestEffort {
      GrownMore(n.pending, r.0.pending, n.seqCounter, r.1, PublishTo(r.0, to, qos, topic, payload), qos, now);
    }
  }

  /**
    Below Reliable nothing is registered. Else exactly these packets are, each under its number; and nothing else of
    the bus changes but the counter.
  */
  lemma {:induction false} PublishedTable(n: Node, targets: seq<uint16>, qos: Q.Profile, topic: string, payload: Bytes, now: nat)
    requires n.seqCounter + |targets| < WORD
    ensures PublishedSoFar(n, Published(n, targets, qos, topic, payload, now), qos, now)
    decreases |targets|
  {
    if targets != [] {
      var front := targets[..|targets| - 1];
      PublishedPackets(n, front, qos, topic, payload, now);
      PublishedTable(n, front, qos, topic, payload, now);
      PublishedOneMore(n, Published(n, front, qos, topic, payload, now), targets[|targets| - 1], qos, topic, payload, now);
    }
  }

  // ---------------------------------------------------------------- requests

  function TimeoutMs(qos: Q.Profile, timeoutMs: nat): (t: nat) {
    if timeoutMs > 0 then timeoutMs
    else if qos.ackTimeoutMs != 0 then qos.ackTimeoutMs * Wrap(qos.maxRetries + 1)
    else 5000
  }

  function IntervalMs(qos: Q.Profile): (t: nat) {
    if qos.ackTimeoutMs != 0 then qos.ackTimeoutMs else 200
  }

  function Asked(n: Node, corrId: uint32, service: string, payload: Bytes, qos: Q.Profile, timeoutMs: nat, now: nat): (r: Node) {
    n.(requests := n.requests[corrId := Waiting(
      service, payload, qos, now + TimeoutMs(qos, timeoutMs) * Q.NS_PER_MS, now + IntervalMs(qos) * Q.NS_PER_MS, IntervalMs(qos))])
  }

  /** One REQUEST with one number for all targets; nothing at all when there are none. */
  function Dispatch(n: Node, corrId: uint32, service: string, payload: Bytes, level: Level, targets: seq<uint16>): (sent: seq<Datagram>) {
    seq(|targets|, i requires 0 <= i < |targets| => Datagram(n.id, targets[i], Request(n.seqCounter, level, corrId, SVC + service, payload)))
  }

  /** Every target gets one copy of the same packet, which carries what was asked under the correlation id. */
  lemma DispatchedPackets(n: Node, corrId: uint32, service: string, payload: Bytes, level: Level, targets: seq<uint16>)
    ensures var sent := Dispatch(n, corrId, service, payload, level, targets);
            |sent| == |targets| && forall k :: 0 <= k < |targets| ==>
              sent[k] == Datagram(n.id, targets[k], Request(n.seqCounter, level, corrId, "$SVC/" + service, payload))
    ensures Dispatched(n, targets) == n.(seqCounter := if targets == [] then n.seqCounter else Wrap(n.seqCounter + 1))
  {
  }

  function Dispatched(n: Node, targets: seq<uint16>): (r: Node) {
    if targets == [] then n else Numbering(n)
  }

  /** A call of sendRequest: what it is given, the id drawn for it, and whom it finds. */
  datatype Query = Query(corrId: uint32, service: string, payload: Bytes, qos: Q.Profile, timeoutMs: nat,
                         targets: seq<uint16>, canDiscover: bool, response: Bytes)

  /** What it leaves: the bus, the packets sent, and the outcome if there is one already. */
  datatype Requested = Requested(node: Node, sent: seq<Datagram>, outcome: Option<Outcome>)

  /**
    Asking for a service: answered here when a local handler exists, else registered and sent; given up at
    once when nobody was reached and no transport could ever discover a provider.
  */
  function RequestedOf(n: Node, q: Query, now: nat): (r: Requested) {
    if q.service in n.services then Requested(Numbering(n), [], Some(Value(q.response)))
    else
      var asked := Asked(n, q.corrId, q.service, q.payload, q.qos, q.timeoutMs, now);
      var sent := Dispatch(asked, q.corrId, q.service, q.payload, q.qos.level, q.targets);
      if q.targets == [] && !q.canDiscover then Requested(Withdrawn(asked, q.corrId), sent, Some(NoProvider))
      else Requested(Dispatched(asked, q.targets), sent, None)
  }

  type Requests = map<uint32, Waiting>

  function Expired(m: Requests, now: nat): (r: set<uint32>) {
    set c | c in m && now >= m[c].deadline
  }

  function Retries(m: Requests, now: nat): (r: set<uint32>) {
    set c | c in m && now < m[c].deadline && now >= m[c].nextRetry
  }

  function Delayed(w: Waiting, now: nat): (r: Waiting) {
    w.(nextRetry := now + w.intervalMs * Q.NS_PER_MS)
  }

  /** The periodic task has taken out the expired requests and rescheduled those it sends again. */
  function Scanned(m: Requests, now: nat): (r: Requests) {
    map c | c in m && c !in Expired(m, now) :: if c in Retries(m, now) then Delayed(m[c], now) else m[c]
  }

  /** The pass has still to come to the requests in `todo`. */
  function ScannedBut(m: Requests, todo: set<uint32>, now: nat): (r: Requests) {
    map c | c in m && (c in todo || c !in Expired(m, now)) ::
      if c !in todo && c in Retries(m, now) then Delayed(m[c], now) else m[c]
  }

  function Withdrawn(n: Node, corrId: uint32): (r: Node) {
    n.(requests := n.requests - {corrId})
  }

  predicate Stale(c: Cached, now: nat) {
    now - c.cachedAt >= REPLY_TTL_NS
  }

  function CacheExpired(n: Node, now: nat): (r: Node) {
    n.(cache := map k | k in n.cache && !Stale(n.cache[k], now) :: n.cache[k])
  }

  function Cleaned(n: Node, now: nat): (r: Node) {
    n.(windows := map s | s in n.windows && !Q.Idle(n.touched, s, now) :: n.windows[s],
       touched := map s | s in n.touched && !Q.Idle(n.touched, s, now) :: n.touched[s])
  }

  // ---------------------------------------------------------------- in place

  class Bus {
    const id: uint16
    const engine: Q.Engine
    var running: bool
    var seqCounter: uint32
    var corrCounter: uint32
    var requests: Requests
    var cache: map<Key, Cached>
    var services: set<string>

    ghost predicate Valid()
      reads this, engine
    {
      engine.Valid()
    }

    function AsNode(): (n: Node)
      reads this, engine
    {
      Node(id, running, seqCounter, corrCounter, engine.pending, engine.pendingRel, engine.windows, engine.touched,
           requests, cache, services)
    }

    constructor (id: uint16)
      ensures Valid() && fresh(engine)
      ensures AsNode() == Node(id, false, 1, 1, map[], map[], map[], map[], map[], map[], {})
    {
      this.id := id;
      engine := new Q.Engine();
      running, seqCounter, corrCounter := false, 1, 1;
      requests, cache, services := map[], map[], {};
    }

    method Start()
      requires Valid()
      modifies this`running
      ensures Valid() && AsNode() == old(AsNode()).(running := true)
    {
      running := true;
    }

    /** A correlation id for a new request. */
    method DrawCorrId() returns (c: uint32)
      requires Valid()
      modifies this`corrCounter
      ensures Valid() && c == old(corrCounter) && AsNode() == old(AsNode()).(corrCounter := Wrap(c + 1))
    {
      c := corrCounter;
      corrCounter := Wrap(corrCounter + 1);
    }

    /** The receive callback: dispatch on the packet's type. */
    method OnReceived(d: Datagram, response: Bytes, now: nat)
      returns (sent: seq<Datagram>, routed: bool, ran: bool, resolved: Option<uint32>)
      requires Valid()
      modifies this, engine
      ensures Valid()
      ensures Effect(AsNode(), sent, routed, ran, resolved) == Received(old(AsNode()), d, response, now)
    {
      sent, routed, ran, resolved := [], false, false, None;
      var p := d.packet;
      if p.Ack? {
        engine.OnAck(p.seqId);
        return;
      }
      if p.Nack? {
        sent := engine.OnNack(p.seqId, now);
        return;
      }
      if p.Pubrec? {
        var was := engine.OnPubrec(p.seqId);
        var rel := Datagram(id, d.from, Pubrel(p.seqId));
        engine.AddPendingRel(p.seqId, rel, Q.DefaultProfile(ExactlyOnce), now);
        sent := [rel];
        return;
      }
      if p.Pubrel? {
        sent := [Datagram(id, d.from, Pubcomp(p.seqId))];
        return;
      }
      if p.Pubcomp? {
        engine.OnPubcomp(p.seqId);
        return;
      }
      if p.Publish? {
        if p.level == ExactlyOnce { sent := [Datagram(id, d.from, Pubrec(p.seqId))]; }
        else if p.level == Reliable { sent := [Datagram(id, d.from, Ack(p.seqId))]; }
      }
      if p.level == ExactlyOnce {
        var duplicate := engine.IsDuplicate(d.from, p.seqId, now);
        if duplicate { return; }
      }
      if p.Publish? {
        routed := true;
        return;
      }
      if p.Request? {
        sent, ran := Serve(d, response, now);
        return;
      }
      if AtLeastReliable(p.level) { sent := [Datagram(id, d.from, Ack(p.seqId))]; }
      if p.corrId in requests {
        requests := requests - {p.corrId};
        resolved := Some(p.corrId);
      }
    }

    method Serve(d: Datagram, response: Bytes, now: nat) returns (sent: seq<Datagram>, ran: bool)
      requires Valid() && d.packet.Request?
      modifies this, engine
      ensures Valid()
      ensures Effect(AsNode(), sent, false, ran, None) == Served(old(AsNode()), d, response, now)
    {
      sent, ran := [], false;
      var p := d.packet;
      var key := Key(d.from, p.corrId);
      if key in cache {
        sent := SendReply(d.from, p.corrId, cache[key].response, Q.DefaultProfile(cache[key].level), false, now);
        return;
      }
      if ServiceName(p.topic) in services {
        ran := true;
        cache := cache[key := Cached(response, p.level, now)];
        sent := SendReply(d.from, p.corrId, response, Q.DefaultProfile(p.level), true, now);
      }
    }

    method SendReply(to: uint16, corrId: uint32, payload: Bytes, qos: Q.Profile, retransmit: bool, now: nat)
      returns (sent: seq<Datagram>)
      requires Valid()
      modifies this`seqCounter, engine`pending
      ensures Valid()
      ensures var n, d := old(AsNode()), Datagram(id, to, Reply(old(seqCounter), qos.level, corrId, payload));
              sent == [d] &&
              AsNode() == if retransmit && AtLeastReliable(qos.level) then Registered(Numbering(n), d, qos, now) else Numbering(n)
    {
      var d := Datagram(id, to, Reply(seqCounter, qos.level, corrId, payload));
      seqCounter := Wrap(seqCounter + 1);
      sent := [d];
      if retransmit && AtLeastReliable(qos.level) {
        engine.AddPending(d.packet.seqId, d, qos, now);
      }
    }

    /** Takes a number for the local delivery, then one for each remote target. */
    method Publish(topic: string, payload: Bytes, qos: Q.Profile, targets: seq<uint16>, now: nat) returns (sent: seq<Datagram>)
      requires Valid()
      modifies this`seqCounter, engine`pending
      ensures Valid()
      ensures (AsNode(), sent) == Published(Numbering(old(AsNode())), targets, qos, topic, payload, now)
    {
      seqCounter := Wrap(seqCounter + 1);
      sent := [];
      for i := 0 to |targets|
        invariant Valid() && (AsNode(), sent) == Published(Numbering(old(AsNode())), targets[..i], qos, topic, payload, now)
      {
        var d := Datagram(id, targets[i], Packet.Publish(seqCounter, qos.level, topic, payload));
        seqCounter := Wrap(seqCounter + 1);
        sent := sent + [d];
        if AtLeastReliable(qos.level) {
          engine.AddPending(d.packet.seqId, d, qos, now);
        }
        assert targets[..i + 1][..i] == targets[..i];
      }
      assert targets[..|targets|] == targets;
    }

    method DispatchRequest(service: string, payload: Bytes, level: Level, corrId: uint32, targets: seq<uint16>)
      returns (sent: seq<Datagram>)
      requires Valid()
      modifies this`seqCounter
      ensures Valid() && AsNode() == Dispatched(old(AsNode()), targets)
      ensures sent == Dispatch(old(AsNode()), corrId, service, payload, level, targets)
    {
      sent := [];
      if targets == [] { return; }
      var p := Request(seqCounter, level, corrId, SVC + service, payload);
      seqCounter := Wrap(seqCounter + 1);
      for i := 0 to |targets|
        invariant |sent| == i && forall j :: 0 <= j < i ==> sent[j] == Datagram(id, targets[j], p)
      {
        sent := sent + [Datagram(id, targets[i], p)];
      }
    }

    method SendRequest(q: Query, now: nat) returns (sent: seq<Datagram>, outcome: Option<Outcome>)
      requires Valid()
      modifies this`seqCounter, this`requests
      ensures Valid() && Requested(AsNode(), sent, outcome) == RequestedOf(old(AsNode()), q, now)
    {
      sent, outcome := [], None;
      if q.service in services {
        seqCounter := Wrap(seqCounter + 1);
        outcome := Some(Value(q.response));
        return;
      }
      requests := requests[q.corrId := Waiting(
        q.service, q.payload, q.qos, now + TimeoutMs(q.qos, q.timeoutMs) * Q.NS_PER_MS, now + IntervalMs(q.qos) * Q.NS_PER_MS,
        IntervalMs(q.qos))];
      sent := DispatchRequest(q.service, q.payload, q.qos.level, q.corrId, q.targets);
      if sent == [] && !q.canDiscover {
        if q.corrId in requests {
          requests := requests - {q.corrId};
          outcome := Some(NoProvider);
        }
      }
    }

    /** The table pass of the periodic task: what timed out, what is due to be sent again. */
    method ExtractExpired(now: nat) returns (expired: seq<uint32>, retries: seq<uint32>)
      requires Valid()
      modifies this`requests
      ensures Valid() && AsNode() == old(AsNode()).(requests := Scanned(old(requests), now))
      ensures Q.Lists(expired, Expired(old(requests), now)) && Q.Lists(retries, Retries(old(requests), now))
    {
      requests, expired, retries := Scan(requests, now);
    }

    method CancelPendingRequest(corrId: uint32)
      requires Valid()
      modifies this`requests
      ensures Valid() && AsNode() == Withdrawn(old(AsNode()), corrId)
    {
      requests := requests - {corrId};
    }

    method Stop() returns (stopped: set<uint32>)
      requires Valid()
      modifies this`running, this`requests
      ensures Valid()
      ensures stopped == if old(running) then old(requests).Keys else {}
      ensures AsNode() == if old(running) then old(AsNode()).(running := false, requests := map[]) else old(AsNode())
    {
      stopped := {};
      if running {
        running := false;
        stopped := requests.Keys;
        requests := map[];
      }
    }

    method ExpireReplyCache(now: nat)
      requires Valid()
      modifies this`cache
      ensures Valid() && AsNode() == CacheExpired(old(AsNode()), now)
    {
      var todo := cache.Keys;
      while todo != {}
        invariant todo <= old(cache).Keys
        invariant forall k :: k in cache ==> k in old(cache) && cache[k] == old(cache)[k]
        invariant forall k :: k in old(cache) ==> (k in cache <==> k in todo || !Stale(old(cache)[k], now))
        decreases |todo|
      {
        var k :| k in todo;
        if Stale(cache[k], now) { cache := cache - {k}; }
        todo := todo - {k};
      }
      assert cache == CacheExpired(old(AsNode()), now).cache;
    }
  }

  /** What the pass does to one request. */
  lemma ScanOne(m: Requests, todo: set<uint32>, now: nat, c: uint32)
    requires todo <= m.Keys && c in todo
    ensures var r := ScannedBut(m, todo, now);
            c in r && r[c] == m[c] &&
            ScannedBut(m, todo - {c}, now) ==
              (if c in Expired(m, now) then r - {c} else if c in Retries(m, now) then r[c := Delayed(m[c], now)] else r)
    ensures Expired(m, now) - (todo - {c}) == (Expired(m, now) - todo) + (if c in Expired(m, now) then {c} else {})
    ensures Retries(m, now) - (todo - {c}) == (Retries(m, now) - todo) + (if c in Retries(m, now) then {c} else {})
  {
  }

  method Scan(m: Requests, now: nat) returns (r: Requests, expired: seq<uint32>, retries: seq<uint32>)
    ensures r == Scanned(m, now)
    ensures Q.Lists(expired, Expired(m, now)) && Q.Lists(retries, Retries(m, now))
  {
    r, expired, retries := m, [], [];
    var todo := m.Keys;
    while todo != {}
      invariant todo <= m.Keys && r == ScannedBut(m, todo, now)
      invariant Q.Lists(expired, Expired(m, now) - todo) && Q.Lists(retries, Retries(m, now) - todo)
      decreases |todo|
    {
      var c :| c in todo;
      ScanOne(m, todo, now, c);
      Q.ListsMore(expired, Expired(m, now) - todo, c);
      Q.ListsMore(retries, Retries(m, now) - todo, c);
      if now >= r[c].deadline {
        expired := expired + [c];
        r := r - {c};
      } else if now >= r[c].nextRetry {
        retries := retries + [c];
        r := r[c := Delayed(r[c], now)];
      }
      todo := todo - {c};
    }
  }
}
