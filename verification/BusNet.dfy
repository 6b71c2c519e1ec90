/**
  Any number of nodes running MessageBus over a network that loses, duplicates and reorders packets: the
  network is the set of all datagrams ever sent, and any of them may be received any number of times.
  One onReceived is one step; `publish`, a request and the periodic task are split where another thread or
  packet can come in between.
*/
module BusNet {
  import opened Words
  import opened Packets
  import opened MessageBus
  import Q = QosEngine

  /** A PUBLISH already handed to the transport and not yet registered for retransmission. */
  datatype Sending = Sending(d: Datagram, qos: Q.Profile)

  /** A copy of a request that a thread is about to send, for the first time or again. */
  datatype Job = Job(corrId: uint32, service: string, payload: Bytes, qos: Q.Profile)

  /**
    A bus and what its threads hold outside its tables: numbers drawn for requests not yet made, request
    copies to send, promises taken out of the table and about to fail.
  */
  datatype Host = Host(bus: Node, sending: set<Sending>, drawn: set<uint32>, jobs: multiset<Job>, failing: map<uint32, Outcome>)

  datatype Sys = Sys(hosts: map<uint16, Host>, net: set<Datagram>)

  datatype Action =
    | Receive(d: Datagram, response: Bytes)
    | Count
    | Send(to: uint16, qos: Q.Profile, topic: string, payload: Bytes)
    | AddPending(sending: Sending)
    | Sweep(sentAt: nat)
    | Cleanup
    | ExpireCache
    | Draw
    | Ask(corrId: uint32, service: string, payload: Bytes, qos: Q.Profile, timeoutMs: nat)
    | AskLocal(corrId: uint32, service: string, payload: Bytes, response: Bytes)
    | Dispatch(job: Job, targets: seq<uint16>)
    | GiveUp(corrId: uint32)
    | Extract
    | Fail(corrId: uint32)
    | Cancel(corrId: uint32)
    | Start
    | Stop
    | Offer(service: string)
    | Withdraw(service: string)

  datatype Step = Step(at: uint16, now: nat, act: Action)

  // ---------------------------------------------------------------- one step

  function Resends(m: Q.Table, now: nat): (r: set<Datagram>) {
    set k | k in Q.Resent(m, now) :: m[k].data
  }

  function Elements(s: seq<Datagram>): (r: set<Datagram>) {
    set d | d in s
  }

  function Sent(h: Host, now: nat, act: Action): (r: set<Datagram>) {
    match act
    case Receive(d, response) => Elements(Received(h.bus, d, response, now).sent)
    case Send(to, qos, topic, payload) => {PublishTo(h.bus, to, qos, topic, payload)}
    case Sweep(_) => Resends(h.bus.pending, now) + Resends(h.bus.pendingRel, now)
    case Dispatch(j, targets) => Elements(MessageBus.Dispatch(h.bus, j.corrId, j.service, j.payload, j.qos.level, targets))
    case _ => {}
  }

  function RetryJobs(m: Requests, now: nat): (r: set<Job>) {
    set c | c in Retries(m, now) :: Job(c, m[c].service, m[c].payload, m[c].qos)
  }

  /** The periodic pass over the requests: expired ones are about to fail, and of those due a copy is to be sent. */
  function Extracted(h: Host, now: nat): (r: Host) {
    h.(bus := h.bus.(requests := Scanned(h.bus.requests, now)), jobs := h.jobs + multiset(RetryJobs(h.bus.requests, now)),
       failing := map c | c in h.failing.Keys + Expired(h.bus.requests, now) ::
         if c in Expired(h.bus.requests, now) then TimedOut else h.failing[c])
  }

  function After(h: Host, now: nat, act: Action): (r: Host) {
    match act
    case Receive(d, response) => h.(bus := Received(h.bus, d, response, now).node)
    case Count => h.(bus := Numbering(h.bus))
    case Send(to, qos, topic, payload) =>
      h.(bus := Numbering(h.bus),
         sending := if AtLeastReliable(qos.level) then h.sending + {Sending(PublishTo(h.bus, to, qos, topic, payload), qos)} else h.sending)
    case AddPending(x) => h.(bus := Registered(h.bus, x.d, x.qos, now), sending := h.sending - {x})
    case Sweep(sentAt) =>
      h.(bus := h.bus.(pending := Q.Swept(h.bus.pending, now, sentAt), pendingRel := Q.Swept(h.bus.pendingRel, now, sentAt)))
    case Cleanup => h.(bus := Cleaned(h.bus, now))
    case ExpireCache => h.(bus := CacheExpired(h.bus, now))
    case Draw => h.(bus := h.bus.(corrCounter := Wrap(h.bus.corrCounter + 1)), drawn := h.drawn + {h.bus.corrCounter})
    case Ask(c, service, payload, qos, timeoutMs) =>
      h.(bus := Asked(h.bus, c, service, payload, qos, timeoutMs, now), drawn := h.drawn - {c},
         jobs := h.jobs + multiset{Job(c, service, payload, qos)})
    case AskLocal(c, _, _, _) => h.(bus := Numbering(h.bus), drawn := h.drawn - {c})
    case Dispatch(j, targets) => h.(bus := Dispatched(h.bus, targets), jobs := h.jobs - multiset{j})
    case GiveUp(c) =>
      if c in h.bus.requests then h.(bus := Withdrawn(h.bus, c), failing := h.failing[c := NoProvider]) else h
    case Extract => Extracted(h, now)
    case Fail(c) => h.(failing := h.failing - {c})
    case Cancel(c) => h.(bus := Withdrawn(h.bus, c))
    case Start => h.(bus := h.bus.(running := true))
    case Stop => if h.bus.running then h.(bus := h.bus.(running := false, requests := map[])) else h
    case Offer(service) => h.(bus := h.bus.(services := h.bus.services + {service}))
    case Withdraw(service) => h.(bus := h.bus.(services := h.bus.services - {service}))
  }

  /** Numbers have not run out: runs end before a 32-bit counter wraps. */
  predicate Fresh(h: Host) {
    h.bus.seqCounter < WORD - 1 && h.bus.corrCounter < WORD - 1
  }

  /** What an action needs. A request is registered some time after its thread found no local handler. */
  predicate Can(h: Host, net: set<Datagram>, act: Action) {
    match act
    case Receive(d, _) => d in net && d.to == h.bus.id
    case AddPending(x) => x in h.sending
    case Ask(c, _, _, _, _) => c in h.drawn
    case AskLocal(c, service, _, _) => c in h.drawn && service in h.bus.services
    case Dispatch(j, _) => j in h.jobs
    case Fail(c) => c in h.failing
    case _ => true
  }

  predicate Enabled(s: Sys, t: Step) {
    t.at in s.hosts && Fresh(s.hosts[t.at]) && Can(s.hosts[t.at], s.net, t.act)
  }

  function Apply(s: Sys, t: Step): (r: Sys)
    requires Enabled(s, t)
  {
    var h := s.hosts[t.at];
    Sys(s.hosts[t.at := After(h, t.now, t.act)], s.net + Sent(h, t.now, t.act))
  }

  // ---------------------------------------------------------------- runs

  function Booted(id: uint16): (h: Host) {
    Host(Node(id, false, 1, 1, map[], map[], map[], map[], map[], map[], {}), {}, {}, multiset{}, map[])
  }

  function Initial(ids: set<uint16>): (s: Sys) {
    Sys(map id | id in ids :: Booted(id), {})
  }

  predicate Run(ids: set<uint16>, run: seq<Step>)
    decreases |run|, 0
  {
    run == [] || (Run(ids, Past(run)) && Enabled(Final(ids, Past(run)), Last(run)))
  }

  function Past(run: seq<Step>): (r: seq<Step>)
    requires run != []
    ensures |r| == |run| - 1
  {
    run[..|run| - 1]
  }

  function Last(run: seq<Step>): (t: Step)
    requires run != []
  {
    run[|run| - 1]
  }

  function Final(ids: set<uint16>, run: seq<Step>): (s: Sys)
    requires Run(ids, run)
    decreases |run|, 1
  {
    if run == [] then Initial(ids) else Apply(Final(ids, Past(run)), Last(run))
  }

  /** Every prefix of a run is a run. */
  lemma {:induction false} Prefix(ids: set<uint16>, run: seq<Step>, i: nat)
    requires Run(ids, run) && i <= |run|
    ensures Run(ids, run[..i])
    ensures i < |run| ==> Enabled(Final(ids, run[..i]), run[i])
    decreases |run|
  {
    if i < |run| {
      Prefix(ids, Past(run), i);
      assert Past(run)[..i] == run[..i];
      if i == |run| - 1 { assert run[..i] == Past(run); }
    } else {
      assert run[..i] == run;
    }
  }

  lemma Extend(ids: set<uint16>, run: seq<Step>, t: Step)
    requires Run(ids, run) && Enabled(Final(ids, run), t)
    ensures Run(ids, run + [t]) && Final(ids, run + [t]) == Apply(Final(ids, run), t)
    ensures Past(run + [t]) == run && Last(run + [t]) == t
  {
    assert Past(run + [t]) == run;
  }

  /** The clock never goes back; steps of one instant are allowed. */
  predicate Timed(run: seq<Step>) {
    forall i, j :: 0 <= i < j < |run| ==> run[i].now <= run[j].now
  }

  /** No step is later than `now`. */
  predicate Until(run: seq<Step>, now: nat) {
    forall i :: 0 <= i < |run| ==> run[i].now <= now
  }

  /** What goes on at `now` keeps the clock from going back. */
  lemma StaysTimed(run: seq<Step>, after: seq<Step>, now: nat)
    requires Timed(run) && Until(run, now) && run <= after
    requires forall k :: |run| <= k < |after| ==> after[k].now == now
    ensures Timed(after) && Until(after, now)
  {
  }

  lemma {:induction false} SameHosts(ids: set<uint16>, run: seq<Step>)
    requires Run(ids, run)
    ensures Final(ids, run).hosts.Keys == ids
  {
    if run != [] { SameHosts(ids, Past(run)); }
  }

  // ---------------------------------------------------------------- what the tables and the network hold

  predicate PendingOk(m: Q.Table, id: uint16, net: set<Datagram>) {
    forall k :: k in m ==> m[k].data in net && m[k].data.from == id && Numbered(m[k].data.packet) && m[k].data.packet.seqId == k
  }

  predicate PendingRelOk(m: Q.Table, id: uint16, net: set<Datagram>) {
    forall k :: k in m ==> m[k].data in net && m[k].data.from == id && m[k].data.packet == Pubrel(k)
  }

  predicate SendingOk(xs: set<Sending>, id: uint16, net: set<Datagram>) {
    forall x :: x in xs ==> x.d in net && x.d.from == id && Numbered(x.d.packet)
  }

  /** Whatever a node may send again has been sent before. */
  predicate NodeOk(n: Node, id: uint16, net: set<Datagram>) {
    n.id == id && PendingOk(n.pending, id, net) && PendingRelOk(n.pendingRel, id, net)
  }

  predicate HostOk(h: Host, id: uint16, net: set<Datagram>) {
    NodeOk(h.bus, id, net) && SendingOk(h.sending, id, net)
  }

  lemma HostOkGrows(h: Host, id: uint16, net: set<Datagram>, more: set<Datagram>)
    requires HostOk(h, id, net)
    ensures HostOk(h, id, net + more)
  {
  }

  lemma ElementsOfOne(x: Datagram)
    ensures Elements([x]) == {x} && Elements([]) == {}
  {
    assert [x][0] == x;
  }

  lemma PendingUpdates(m: Q.Table, id: uint16, net: set<Datagram>, k: uint32, d: Datagram, qos: Q.Profile, now: nat)
    requires PendingOk(m, id, net)
    ensures PendingOk(m - {k}, id, net)
    ensures k in m ==> PendingOk(m[k := Q.Retried(m[k], now)], id, net)
    ensures d.from == id && Numbered(d.packet) && d.packet.seqId == k ==> PendingOk(m[k := Q.Make(k, d, qos, now)], id, net + {d})
  {
  }

  lemma PendingRelUpdates(m: Q.Table, id: uint16, net: set<Datagram>, k: uint32, d: Datagram, qos: Q.Profile, now: nat)
    requires PendingRelOk(m, id, net)
    ensures PendingRelOk(m - {k}, id, net)
    ensures d.from == id && d.packet == Pubrel(k) ==> PendingRelOk(m[k := Q.Make(k, d, qos, now)], id, net + {d})
  {
  }

  lemma ReceiveControlKeepsNode(n: Node, id: uint16, net: set<Datagram>, now: nat, d: Datagram, response: Bytes)
    requires NodeOk(n, id, net) && !Numbered(d.packet)
    ensures var e := Received(n, d, response, now); NodeOk(e.node, id, net + Elements(e.sent))
  {
    var e := Received(n, d, response, now);
    var rel := Datagram(n.id, d.from, Pubrel(d.packet.seqId));
    NodeOkGrows(n, id, net, Elements(e.sent));
    ElementsOfOne(rel);
    PendingUpdates(n.pending, id, net + Elements(e.sent), d.packet.seqId, d, Q.DefaultProfile(ExactlyOnce), now);
    PendingRelUpdates(n.pendingRel, id, net, d.packet.seqId, rel, Q.DefaultProfile(ExactlyOnce), now);
    PendingRelUpdates(n.pendingRel, id, net + Elements(e.sent), d.packet.seqId, rel, Q.DefaultProfile(ExactlyOnce), now);
  }

  lemma AnsweredKeepsNode(n: Node, id: uint16, net: set<Datagram>, now: nat, d: Datagram, response: Bytes)
    requires NodeOk(n, id, net) && d.packet.Request?
    ensures var e := Answered(n, d, response, now); NodeOk(e.node, id, net + Elements(e.sent))
  {
    var reply := ReplyTo(n, d, d.packet.level, response);
    ElementsOfOne(reply);
    NodeOkGrows(n, id, net, {reply});
    PendingUpdates(n.pending, id, net, n.seqCounter, reply, Q.DefaultProfile(d.packet.level), now);
  }

  lemma ServedKeepsNode(n: Node, id: uint16, net: set<Datagram>, now: nat, d: Datagram, response: Bytes)
    requires NodeOk(n, id, net) && d.packet.Request?
    ensures var e := Served(n, d, response, now); NodeOk(e.node, id, net + Elements(e.sent))
  {
    AnsweredKeepsNode(n, id, net, now, d, response);
    NodeOkGrows(n, id, net, Elements(Served(n, d, response, now).sent));
  }

  lemma CheckedKeepsNode(n: Node, id: uint16, net: set<Datagram>, source: uint16, p: Packet, now: nat)
    requires NodeOk(n, id, net) && Numbered(p)
    ensures NodeOk(Checked(n, source, p, now), id, net)
  {
  }

  lemma NodeOkGrows(n: Node, id: uint16, net: set<Datagram>, more: set<Datagram>)
    requires NodeOk(n, id, net)
    ensures NodeOk(n, id, net + more)
  {
  }

  lemma ReceiveKeepsNode(n: Node, id: uint16, net: set<Datagram>, now: nat, d: Datagram, response: Bytes)
    requires NodeOk(n, id, net)
    ensures var e := Received(n, d, response, now); NodeOk(e.node, id, net + Elements(e.sent))
  {
    if !Numbered(d.packet) {
      ReceiveControlKeepsNode(n, id, net, now, d, response);
    } else {
      var m := Checked(n, d.from, d.packet, now);
      CheckedKeepsNode(n, id, net, d.from, d.packet, now);
      NodeOkGrows(m, id, net, Elements(Received(n, d, response, now).sent));
      if d.packet.Request? && !Filtered(n, d.from, d.packet) { ServedKeepsNode(m, id, net, now, d, response); }
    }
  }

  lemma SweepKeepsNode(n: Node, id: uint16, net: set<Datagram>, now: nat, sentAt: nat)
    requires NodeOk(n, id, net)
    ensures PendingOk(Q.Swept(n.pending, now, sentAt), id, net) && PendingRelOk(Q.Swept(n.pendingRel, now, sentAt), id, net)
    ensures Resends(n.pending, now) <= net && Resends(n.pendingRel, now) <= net
  {
  }

  lemma ActKeepsHost(h: Host, id: uint16, net: set<Datagram>, now: nat, act: Action)
    requires HostOk(h, id, net) && Can(h, net, act)
    ensures HostOk(After(h, now, act), id, net + Sent(h, now, act))
  {
    HostOkGrows(h, id, net, Sent(h, now, act));
    if act.Receive? {
      ReceiveKeepsNode(h.bus, id, net, now, act.d, act.response);
    } else if act.Sweep? {
      SweepKeepsNode(h.bus, id, net, now, act.sentAt);
    }
  }

  predicate HostsOk(s: Sys) {
    forall id :: id in s.hosts ==> HostOk(s.hosts[id], id, s.net)
  }

  lemma {:induction false} RunKeepsHosts(ids: set<uint16>, run: seq<Step>)
    requires Run(ids, run)
    ensures HostsOk(Final(ids, run))
  {
    if run != [] {
      RunKeepsHosts(ids, Past(run));
      var s, t := Final(ids, Past(run)), Last(run);
      ActKeepsHost(s.hosts[t.at], t.at, s.net, t.now, t.act);
      forall id | id in s.hosts && id != t.at
        ensures HostOk(Apply(s, t).hosts[id], id, Apply(s, t).net)
      {
        HostOkGrows(s.hosts[id], id, s.net, Sent(s.hosts[t.at], t.now, t.act));
      }
    }
  }

  // ---------------------------------------------------------------- why a packet was sent

  /** The step that made x is the one the protocol calls for. */
  predicate Cause(h: Host, now: nat, act: Action, x: Datagram) {
    match x.packet
    case Publish(s, level, topic, payload) =>
      act.Send? && x.to == act.to && s == h.bus.seqCounter && level == act.qos.level && topic == act.topic && payload == act.payload
    case Request(_, level, c, topic, payload) =>
      act.Dispatch? && x.to in act.targets && act.job.corrId == c && topic == SVC + act.job.service && payload == act.job.payload &&
      level == act.job.qos.level
    case Reply(_, level, c, v) =>
      act.Receive? && act.d.packet.Request? && act.d.from == x.to && act.d.packet.corrId == c &&
      ((Received(h.bus, act.d, act.response, now).ran && act.response == v) ||
       (Key(x.to, c) in h.bus.cache && h.bus.cache[Key(x.to, c)].response == v))
    case Ack(s) =>
      act.Receive? && Numbered(act.d.packet) && !act.d.packet.Request? && act.d.from == x.to && act.d.packet.seqId == s &&
      (act.d.packet.Publish? ==> act.d.packet.level == Reliable)
    case Nack(_) => false
    case Pubrec(s) =>
      act.Receive? && act.d.packet.Publish? && act.d.from == x.to && act.d.packet.seqId == s && act.d.packet.level == ExactlyOnce
    case Pubrel(s) => act.Receive? && act.d == Datagram(x.to, h.bus.id, Pubrec(s))
    case Pubcomp(s) => act.Receive? && act.d == Datagram(x.to, h.bus.id, Pubrel(s))
  }

  lemma RequestHasCause(h: Host, now: nat, d: Datagram, response: Bytes, x: Datagram)
    requires d.packet.Request? && x in Received(h.bus, d, response, now).sent
    ensures x.from == h.bus.id && Cause(h, now, Receive(d, response), x) && x.packet.Reply? && x.packet.seqId == h.bus.seqCounter
    ensures Received(h.bus, d, response, now).node.seqCounter == Wrap(h.bus.seqCounter + 1)
    ensures Received(h.bus, d, response, now).sent == [x]
  {
  }

  lemma OtherHasCause(h: Host, id: uint16, net: set<Datagram>, now: nat, d: Datagram, response: Bytes, x: Datagram)
    requires HostOk(h, id, net) && d.to == id && !d.packet.Request? && x in Received(h.bus, d, response, now).sent
    ensures x in net || (x.from == id && !Numbered(x.packet) && Cause(h, now, Receive(d, response), x))
  {
  }

  /** Nothing is sent that was not sent before or called for by this step. */
  lemma SentHasCause(h: Host, id: uint16, net: set<Datagram>, now: nat, act: Action, x: Datagram)
    requires HostOk(h, id, net) && Can(h, net, act) && x in Sent(h, now, act)
    ensures x in net || (x.from == id && Cause(h, now, act, x))
  {
    if act.Receive? {
      if act.d.packet.Request? {
        RequestHasCause(h, now, act.d, act.response, x);
      } else {
        OtherHasCause(h, id, net, now, act.d, act.response, x);
      }
    } else if act.Sweep? {
      SweepKeepsNode(h.bus, id, net, now, act.sentAt);
    }
  }

  /** A new numbered packet carries the number the counter had, which moves on. */
  lemma NewNumber(h: Host, id: uint16, net: set<Datagram>, now: nat, act: Action, x: Datagram)
    requires HostOk(h, id, net) && Can(h, net, act) && Fresh(h)
    requires x in Sent(h, now, act) && x !in net && Numbered(x.packet)
    ensures x.packet.seqId == h.bus.seqCounter && After(h, now, act).bus.seqCounter == h.bus.seqCounter + 1
    ensures forall y :: y in Sent(h, now, act) ==> y.packet == x.packet
  {
    if act.Receive? {
      if act.d.packet.Request? {
        RequestHasCause(h, now, act.d, act.response, x);
      } else {
        OtherHasCause(h, id, net, now, act.d, act.response, x);
      }
    } else if act.Sweep? {
      SweepKeepsNode(h.bus, id, net, now, act.sentAt);
    }
  }

  lemma ReceiveCounters(h: Host, now: nat, d: Datagram, response: Bytes)
    requires Fresh(h)
    ensures SameIdentity(h.bus, After(h, now, Receive(d, response)).bus)
    ensures h.bus.seqCounter <= After(h, now, Receive(d, response)).bus.seqCounter
  {
  }

  lemma CounterGrows(h: Host, now: nat, act: Action)
    requires Fresh(h)
    ensures h.bus.seqCounter <= After(h, now, act).bus.seqCounter
    ensures After(h, now, act).bus.corrCounter == if act.Draw? then h.bus.corrCounter + 1 else h.bus.corrCounter
  {
    if act.Receive? {
      ReceiveCounters(h, now, act.d, act.response);
    } else {
      assert After(h, now, act).bus.seqCounter == h.bus.seqCounter || After(h, now, act).bus.seqCounter == Wrap(h.bus.seqCounter + 1);
    }
  }
}
