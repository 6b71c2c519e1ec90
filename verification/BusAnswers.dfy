/**
  What a bus does with each packet and with time, said of the packets, tables and clock readings themselves: which
  answer goes to whom under which number, what is registered, when a request is due or over, what is forgotten.
*/
module BusAnswers {
  import opened Words
  import opened Packets
  import opened MessageBus
  import Q = QosEngine
  import D = DedupWindow

  const MS := 1_000_000

  // ---------------------------------------------------------------- answers

  /** Only an ExactlyOnce packet can be turned away. */
  predicate Passes(n: Node, from: uint16, level: Level, seqId: uint32) {
    level == ExactlyOnce ==> from !in n.windows || !D.Duplicate(n.windows[from], seqId)
  }

  /** The tables and counters are untouched. */
  predicate SameTables(n: Node, m: Node) {
    m.pending == n.pending && m.pendingRel == n.pendingRel && m.requests == n.requests && m.cache == n.cache &&
    m.seqCounter == n.seqCounter && m.corrCounter == n.corrCounter && m.services == n.services && m.running == n.running
  }

  /** A PUBLISH is answered by its level, also when it is a repetition; below ExactlyOnce it is always routed and leaves no trace. */
  lemma PublishAnswered(n: Node, d: Datagram, response: Bytes, now: nat)
    requires d.packet.Publish?
    ensures var e, p := Received(n, d, response, now), d.packet;
            e.sent == (match p.level
                       case BestEffort => []
                       case Reliable => [Datagram(n.id, d.from, Ack(p.seqId))]
                       case ExactlyOnce => [Datagram(n.id, d.from, Pubrec(p.seqId))]) &&
            (e.routed <==> Passes(n, d.from, p.level, p.seqId)) && SameTables(n, e.node) && (p.level != ExactlyOnce ==> e.node == n)
  {
  }

  /** An entry of the two tables, sent just now, with the retries and interval of the default profile. */
  function DefaultEntry(d: Datagram, seqId: uint32, now: nat): (p: Q.Pending) {
    Q.Pending(seqId, d, now, 0, 3, 100)
  }

  /** A REQUEST answered before is answered the same out of the cache, without registering the answer. */
  lemma RequestRepeated(n: Node, d: Datagram, v: Bytes, now: nat)
    requires d.packet.Request? && Passes(n, d.from, d.packet.level, d.packet.seqId) && Key(d.from, d.packet.corrId) in n.cache
    ensures var e, was := Received(n, d, v, now), n.cache[Key(d.from, d.packet.corrId)];
            e.sent == [Datagram(n.id, d.from, Reply(n.seqCounter, was.level, d.packet.corrId, was.response))] && !e.ran &&
            SameTables(n.(seqCounter := Wrap(n.seqCounter + 1)), e.node)
  {
  }

  /**
    Else it is answered by the handler of the service behind "$SVC/", at the level it came with; the answer is
    remembered, and registered unless that level is BestEffort.
  */
  lemma RequestHandled(n: Node, d: Datagram, service: string, v: Bytes, now: nat)
    requires d.packet.Request? && Passes(n, d.from, d.packet.level, d.packet.seqId) && Key(d.from, d.packet.corrId) !in n.cache
    requires d.packet.topic == "$SVC/" + service && service in n.services
    ensures var e, p := Received(n, d, v, now), d.packet;
            var reply := Datagram(n.id, d.from, Reply(n.seqCounter, p.level, p.corrId, v));
            e.sent == [reply] && e.ran && SameTables(Handled(n, d.from, p.level, p.corrId, reply, v, now), e.node)
  {
    var m := Checked(n, d.from, d.packet, now);
    ServiceNameOf(service);
    assert Received(n, d, v, now) == Answered(m, d, v, now);
    AnsweredMeans(m, d, v, now);
  }

  lemma AnsweredMeans(m: Node, d: Datagram, v: Bytes, now: nat)
    requires d.packet.Request?
    ensures var e, p := Answered(m, d, v, now), d.packet;
            var reply := Datagram(m.id, d.from, Reply(m.seqCounter, p.level, p.corrId, v));
            e.sent == [reply] && e.ran && SameTables(Handled(m, d.from, p.level, p.corrId, reply, v, now), e.node)
  {
  }

  function Handled(n: Node, from: uint16, level: Level, corrId: uint32, reply: Datagram, v: Bytes, now: nat): (r: Node) {
    n.(seqCounter := Wrap(n.seqCounter + 1), cache := n.cache[Key(from, corrId) := Cached(v, level, now)],
       pending := if level == BestEffort then n.pending else n.pending[n.seqCounter := DefaultEntry(reply, n.seqCounter, now)])
  }

  /** Otherwise, and when it is turned away, nothing is sent. */
  lemma RequestIgnored(n: Node, d: Datagram, service: string, v: Bytes, now: nat)
    requires d.packet.Request? && d.packet.topic == "$SVC/" + service
    requires Passes(n, d.from, d.packet.level, d.packet.seqId) ==> Key(d.from, d.packet.corrId) !in n.cache && service !in n.services
    ensures var e := Received(n, d, v, now); e.sent == [] && !e.ran && SameTables(n, e.node)
  {
    ServiceNameOf(service);
  }

  /** A REPLY that passes is acknowledged unless it is BestEffort, and resolves the request that waits under its id, if any. */
  lemma ReplyTaken(n: Node, d: Datagram, response: Bytes, now: nat)
    requires d.packet.Reply?
    ensures var e, p := Received(n, d, response, now), d.packet;
            var passes := Passes(n, d.from, p.level, p.seqId);
            e.sent == (if passes && p.level != BestEffort then [Datagram(n.id, d.from, Ack(p.seqId))] else []) &&
            e.resolved == (if passes && p.corrId in n.requests then Some(p.corrId) else None) &&
            SameTables(n.(requests := if passes then n.requests - {p.corrId} else n.requests), e.node)
  {
  }

  /** The handshake: what each packet takes off and puts on the tables, and its answer. */
  lemma HandshakeAnswered(n: Node, d: Datagram, response: Bytes, now: nat)
    requires !Numbered(d.packet)
    ensures var e, s := Received(n, d, response, now), d.packet.seqId;
            var rel := Datagram(n.id, d.from, Pubrel(s));
            match d.packet
            case Ack(_) => e.node == n.(pending := n.pending - {s}) && e.sent == []
            case Nack(_) =>
              if s in n.pending then
                e.sent == [n.pending[s].data] &&
                e.node == n.(pending := n.pending[s := n.pending[s].(retryCount := n.pending[s].retryCount + 1, lastSent := now)])
              else e.node == n && e.sent == []
            case Pubrec(_) =>
              e.sent == [rel] && e.node == n.(pending := n.pending - {s}, pendingRel := n.pendingRel[s := DefaultEntry(rel, s, now)])
            case Pubrel(_) => e.node == n && e.sent == [Datagram(n.id, d.from, Pubcomp(s))]
            case Pubcomp(_) => e.node == n.(pendingRel := n.pendingRel - {s}) && e.sent == []
  {
  }

  // ---------------------------------------------------------------- requests in time

  /** How long a request waits in all: what the caller says, else what the profile says, else five seconds. */
  lemma TimeoutIs(qos: Q.Profile, timeoutMs: nat)
    ensures timeoutMs > 0 ==> TimeoutMs(qos, timeoutMs) == timeoutMs
    ensures timeoutMs == 0 && qos.ackTimeoutMs > 0 && qos.maxRetries < WORD - 1 ==>
              TimeoutMs(qos, timeoutMs) == qos.ackTimeoutMs * (qos.maxRetries + 1)
    ensures timeoutMs == 0 && qos.ackTimeoutMs > 0 && qos.maxRetries == WORD - 1 ==> TimeoutMs(qos, timeoutMs) == 0
    ensures timeoutMs == 0 && qos.ackTimeoutMs == 0 ==> TimeoutMs(qos, timeoutMs) == 5000
    ensures IntervalMs(qos) == if qos.ackTimeoutMs > 0 then qos.ackTimeoutMs else 200
  {
    if qos.maxRetries < WORD - 1 { WrapSmall(qos.maxRetries + 1); }
  }

  /** With the default profile: two seconds unless the caller says otherwise, and a retry every 500 ms. */
  lemma DefaultTimes(level: Level, timeoutMs: nat)
    ensures TimeoutMs(Q.DefaultProfile(level), timeoutMs) == if timeoutMs > 0 then timeoutMs else 2000
    ensures IntervalMs(Q.DefaultProfile(level)) == 500
  {
    TimeoutIs(Q.DefaultProfile(level), timeoutMs);
  }

  function Passed(m: Requests, times: seq<nat>): (r: Requests) {
    if times == [] then m else Scanned(Passed(m, times[..|times| - 1]), times[|times| - 1])
  }

  /**
    Periodic passes before the deadline that come a retry interval or more after asking and after each other: every
    one of them finds the request due.
  */
  lemma {:induction false} EveryPassResends(n: Node, q: Query, at: nat, times: seq<nat>)
    requires Q.Apart(at, times, IntervalMs(q.qos) * MS)
    requires forall i :: 0 <= i < |times| ==> times[i] < at + TimeoutMs(q.qos, q.timeoutMs) * MS
    ensures var m := Asked(n, q.corrId, q.service, q.payload, q.qos, q.timeoutMs, at).requests;
            var r := Passed(m, times);
            q.corrId in r &&
            r[q.corrId] == Waiting(q.service, q.payload, q.qos, at + TimeoutMs(q.qos, q.timeoutMs) * MS,
                                   Q.Latest(at, times) + IntervalMs(q.qos) * MS, IntervalMs(q.qos)) &&
            (times != [] ==> q.corrId in Retries(Passed(m, times[..|times| - 1]), times[|times| - 1]))
    decreases |times|
  {
    if times != [] {
      var front := times[..|times| - 1];
      assert forall i :: 0 <= i < |front| ==> front[i] == times[i];
      EveryPassResends(n, q, at, front);
    }
  }

  /** The first pass at or after the deadline takes the request out, and no pass before it does. */
  lemma PassExpires(m: Requests, c: uint32, now: nat)
    requires c in m
    ensures c in Expired(m, now) <==> now >= m[c].deadline
    ensures c in Scanned(m, now) <==> now < m[c].deadline
    ensures c in Retries(m, now) <==> m[c].nextRetry <= now < m[c].deadline
    ensures now < m[c].deadline && now < m[c].nextRetry ==> Scanned(m, now)[c] == m[c]
  {
  }

  // ---------------------------------------------------------------- what is forgotten

  /** A reply is remembered for 30 seconds. */
  lemma RepliesKept(n: Node, k: Key, now: nat)
    ensures k in CacheExpired(n, now).cache <==> k in n.cache && now < n.cache[k].cachedAt + 30_000 * MS
    ensures k in CacheExpired(n, now).cache ==> CacheExpired(n, now).cache[k] == n.cache[k]
    ensures CacheExpired(n, now) == n.(cache := CacheExpired(n, now).cache)
  {
  }

  /** A window is kept unless it was touched and more than 30 seconds have passed since. */
  lemma WindowsKept(n: Node, p: uint16, now: nat)
    ensures p in Cleaned(n, now).windows <==> p in n.windows && (p in n.touched ==> now <= n.touched[p] + 30_000 * MS)
    ensures p in Cleaned(n, now).windows ==> Cleaned(n, now).windows[p] == n.windows[p]
    ensures Cleaned(n, now) == n.(windows := Cleaned(n, now).windows, touched := Cleaned(n, now).touched)
  {
  }
}
