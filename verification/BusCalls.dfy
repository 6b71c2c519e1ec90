/** Calls made on a bus are sequences of BusNet steps, so that what is proved about runs holds for the methods of Bus. */
module BusCalls {
  import opened Words
  import opened Packets
  import opened MessageBus
  import opened BusNet
  import opened QosDelivery
  import opened RequestReply
  import Q = QosEngine

  // ---------------------------------------------------------------- publish

  /** A call of publish: what it is given, and the time it is made. */
  datatype Call = Call(at: uint16, now: nat, qos: Q.Profile, topic: string, payload: Bytes)

  function SendTo(c: Call, to: uint16): (t: Step) {
    Step(c.at, c.now, Send(to, c.qos, c.topic, c.payload))
  }

  function Register(c: Call, d: Datagram): (t: Step) {
    Step(c.at, c.now, Action.AddPending(Sending(d, c.qos)))
  }

  function PublishedTo(n: Node, targets: seq<uint16>, c: Call): (r: (Node, seq<Datagram>)) {
    Published(n, targets, c.qos, c.topic, c.payload, c.now)
  }

  /** The steps for one target. */
  function Handing(n: Node, c: Call, to: uint16): (ts: seq<Step>) {
    if AtLeastReliable(c.qos.level) then [SendTo(c, to)] + [Register(c, PublishTo(n, to, c.qos, c.topic, c.payload))]
    else [SendTo(c, to)]
  }

  /** A number for the local delivery; then for each target the packet is sent and, if it asks for it, registered. */
  function PublishSteps(n: Node, targets: seq<uint16>, c: Call): (ts: seq<Step>)
    decreases |targets|
  {
    if targets == [] then [Counting(c)]
    else
      var last := |targets| - 1;
      PublishSteps(n, targets[..last], c) + Handing(PublishedTo(n, targets[..last], c).0, c, targets[last])
  }

  /** The call has come so far: bus and network are what the method says, and nobody else has changed. */
  predicate Reached(s: Sys, c: Call, h: Host, net: set<Datagram>, hosts: map<uint16, Host>, r: (Node, seq<Datagram>)) {
    c.at in hosts && s.hosts == hosts[c.at := h.(bus := r.0)] && s.net == net + Elements(r.1)
  }

  lemma {:induction false} PublishedCounters(n: Node, targets: seq<uint16>, c: Call)
    requires n.seqCounter + |targets| < WORD
    ensures var m := PublishedTo(n, targets, c).0;
            m.seqCounter == n.seqCounter + |targets| && m.corrCounter == n.corrCounter && m.id == n.id
    decreases |targets|
  {
    if targets != [] { PublishedCounters(n, targets[..|targets| - 1], c); }
  }

  lemma ElementsSnoc(s: seq<Datagram>, d: Datagram)
    ensures Elements(s + [d]) == Elements(s) + {d}
  {
    assert forall x :: x in s + [d] <==> x in s || x == d;
  }

  /** A packet under a number not yet used is not waiting to be registered. */
  lemma NotSending(ids: set<uint16>, run: seq<Step>, at: uint16, d: Datagram, qos: Q.Profile)
    requires Run(ids, run) && at in Final(ids, run).hosts && Is(d, at, Final(ids, run).hosts[at].bus.seqCounter)
    ensures Sending(d, qos) !in Final(ids, run).hosts[at].sending
  {
    RunKeepsHosts(ids, run);
    assert HostOk(Final(ids, run).hosts[at], at, Final(ids, run).net);
    NumberNamesPacket(ids, run, at, d.packet.seqId);
  }

  predicate AtHome(s: Sys, at: uint16, room: nat) {
    at in s.hosts && s.hosts[at].bus.id == at && s.hosts[at].bus.corrCounter < WORD - 1 &&
    s.hosts[at].bus.seqCounter + room < WORD - 1
  }

  lemma SendStep(s: Sys, c: Call, to: uint16)
    requires AtHome(s, c.at, 1)
    ensures var h := s.hosts[c.at]; var d := PublishTo(h.bus, to, c.qos, c.topic, c.payload);
            var sending := if AtLeastReliable(c.qos.level) then h.sending + {Sending(d, c.qos)} else h.sending;
            Enabled(s, SendTo(c, to)) &&
            Apply(s, SendTo(c, to)) == Sys(s.hosts[c.at := h.(bus := Numbering(h.bus), sending := sending)], s.net + {d})
  {
  }

  lemma RegisterStep(s: Sys, c: Call, d: Datagram, sending: set<Sending>)
    requires AtHome(s, c.at, 0) && Sending(d, c.qos) !in sending && s.hosts[c.at].sending == sending + {Sending(d, c.qos)}
    ensures var h := s.hosts[c.at];
            Enabled(s, Register(c, d)) &&
            Apply(s, Register(c, d)) == Sys(s.hosts[c.at := h.(bus := Registered(h.bus, d, c.qos, c.now), sending := sending)], s.net)
  {
    assert sending + {Sending(d, c.qos)} - {Sending(d, c.qos)} == sending;
    assert s.net + Sent(s.hosts[c.at], c.now, Register(c, d).act) == s.net;
  }

  /** What a target's packet leaves of the bus. */
  function Handed(n: Node, c: Call, to: uint16): (r: Node) {
    var d := PublishTo(n, to, c.qos, c.topic, c.payload);
    if AtLeastReliable(c.qos.level) then Registered(Numbering(n), d, c.qos, c.now) else Numbering(n)
  }

  lemma SendThenRegister(s: Sys, c: Call, to: uint16)
    requires AtHome(s, c.at, 1) && AtLeastReliable(c.qos.level)
    requires Sending(PublishTo(s.hosts[c.at].bus, to, c.qos, c.topic, c.payload), c.qos) !in s.hosts[c.at].sending
    ensures var h := s.hosts[c.at]; var d := PublishTo(h.bus, to, c.qos, c.topic, c.payload);
            Enabled(s, SendTo(c, to)) && Enabled(Apply(s, SendTo(c, to)), Register(c, d)) &&
            Apply(Apply(s, SendTo(c, to)), Register(c, d)) == Sys(s.hosts[c.at := h.(bus := Handed(h.bus, c, to))], s.net + {d})
  {
    var h := s.hosts[c.at];
    SendStep(s, c, to);
    RegisterStep(Apply(s, SendTo(c, to)), c, PublishTo(h.bus, to, c.qos, c.topic, c.payload), h.sending);
  }

  /** One target: sent, and registered if reliable. */
  lemma HandOne(ids: set<uint16>, run: seq<Step>, c: Call, to: uint16)
    requires Run(ids, run) && AtHome(Final(ids, run), c.at, 1)
    ensures var s := Final(ids, run);
            var h := s.hosts[c.at];
            var after := run + Handing(h.bus, c, to);
            Run(ids, after) &&
            Final(ids, after) == Sys(s.hosts[c.at := h.(bus := Handed(h.bus, c, to))], s.net + {PublishTo(h.bus, to, c.qos, c.topic, c.payload)})
  {
    var s := Final(ids, run);
    var d := PublishTo(s.hosts[c.at].bus, to, c.qos, c.topic, c.payload);
    if AtLeastReliable(c.qos.level) {
      NotSending(ids, run, c.at, d, c.qos);
      SendThenRegister(s, c, to);
      ExtendTwice(ids, run, SendTo(c, to), Register(c, d));
    } else {
      SendStep(s, c, to);
      Extend(ids, run, SendTo(c, to));
    }
  }

  lemma ExtendTwice(ids: set<uint16>, run: seq<Step>, t: Step, u: Step)
    requires Run(ids, run) && Enabled(Final(ids, run), t) && Enabled(Apply(Final(ids, run), t), u)
    ensures Run(ids, run + ([t] + [u])) && Final(ids, run + ([t] + [u])) == Apply(Apply(Final(ids, run), t), u)
  {
    Extend(ids, run, t);
    Extend(ids, run + [t], u);
    assert run + ([t] + [u]) == run + [t] + [u];
  }

  lemma HandNext(ids: set<uint16>, front: seq<Step>, s: Sys, c: Call, before: (Node, seq<Datagram>), to: uint16)
    requires Run(ids, front) && c.at in s.hosts && AtHome(Final(ids, front), c.at, 1)
    requires Reached(Final(ids, front), c, s.hosts[c.at], s.net, s.hosts, before)
    ensures var after := front + Handing(before.0, c, to);
            Run(ids, after) && Reached(Final(ids, after), c, s.hosts[c.at], s.net, s.hosts, WithOne(before, c, to))
  {
    HandOne(ids, front, c, to);
    ReachedMore(Final(ids, front), c, s.hosts[c.at], s.net, s.hosts, before, to);
  }

  /** One more target on top of what was reached. */
  lemma ReachedMore(s: Sys, c: Call, h: Host, net: set<Datagram>, hosts: map<uint16, Host>, before: (Node, seq<Datagram>), to: uint16)
    requires Reached(s, c, h, net, hosts, before)
    ensures var g := s.hosts[c.at];
            g.bus == before.0 &&
            Reached(Sys(s.hosts[c.at := g.(bus := Handed(g.bus, c, to))], s.net + {PublishTo(g.bus, to, c.qos, c.topic, c.payload)}),
                    c, h, net, hosts, WithOne(before, c, to))
  {
    ElementsSnoc(before.1, PublishTo(before.0, to, c.qos, c.topic, c.payload));
  }

  function WithOne(before: (Node, seq<Datagram>), c: Call, to: uint16): (r: (Node, seq<Datagram>)) {
    (Handed(before.0, c, to), before.1 + [PublishTo(before.0, to, c.qos, c.topic, c.payload)])
  }

  lemma PublishedSnoc(n: Node, targets: seq<uint16>, c: Call)
    requires targets != []
    ensures PublishedTo(n, targets, c) == WithOne(PublishedTo(n, targets[..|targets| - 1], c), c, targets[|targets| - 1])
  {
  }

  lemma StepsSnoc(n: Node, targets: seq<uint16>, c: Call)
    requires targets != []
    ensures var last := |targets| - 1;
            PublishSteps(n, targets, c) ==
              PublishSteps(n, targets[..last], c) + Handing(PublishedTo(n, targets[..last], c).0, c, targets[last])
  {
  }

  /** The run with the call's steps for these targets ends, from s, with the bus and the packets that Published says, and nothing else changed. */
  predicate Doing(ids: set<uint16>, run: seq<Step>, s: Sys, c: Call, n: Node, targets: seq<uint16>) {
    var after := run + PublishSteps(n, targets, c);
    c.at in s.hosts && Run(ids, after) &&
    Reached(Final(ids, after), c, s.hosts[c.at], s.net, s.hosts, PublishedTo(n, targets, c))
  }

  /** From all targets but the last to all. */
  lemma PublishLast(ids: set<uint16>, run: seq<Step>, s: Sys, targets: seq<uint16>, c: Call, n: Node)
    requires targets != [] && Doing(ids, run, s, c, n, targets[..|targets| - 1])
    requires var m := PublishedTo(n, targets[..|targets| - 1], c).0;
             m.id == c.at && m.seqCounter < WORD - 2 && m.corrCounter < WORD - 1
    ensures Doing(ids, run, s, c, n, targets)
  {
    var last := |targets| - 1;
    var before, front := PublishedTo(n, targets[..last], c), PublishSteps(n, targets[..last], c);
    RoomLeft(Final(ids, run + front), c, s.hosts[c.at], s.net, s.hosts, before);
    PublishedSnoc(n, targets, c);
    StepsSnoc(n, targets, c);
    HandNext(ids, run + front, s, c, before, targets[last]);
    Regroup(run, front, Handing(before.0, c, targets[last]));
  }

  lemma RoomLeft(s: Sys, c: Call, h: Host, net: set<Datagram>, hosts: map<uint16, Host>, r: (Node, seq<Datagram>))
    requires Reached(s, c, h, net, hosts, r) && r.0.id == c.at && r.0.seqCounter < WORD - 2 && r.0.corrCounter < WORD - 1
    ensures AtHome(s, c.at, 1)
  {
  }

  function Counting(c: Call): (t: Step) {
    Step(c.at, c.now, Count)
  }

  lemma CountStep(s: Sys, c: Call, room: nat)
    requires AtHome(s, c.at, room + 1)
    ensures var n := Numbering(s.hosts[c.at].bus);
            Enabled(s, Counting(c)) && PublishSteps(n, [], c) == [Counting(c)] &&
            Reached(Apply(s, Counting(c)), c, s.hosts[c.at], s.net, s.hosts, PublishedTo(n, [], c)) &&
            n.id == c.at && n.seqCounter + room < WORD - 1 && n.corrCounter < WORD - 1
  {
    assert s.net + Sent(s.hosts[c.at], c.now, Count) == s.net;
    assert Elements([]) == {};
  }

  lemma CountFirst(ids: set<uint16>, run: seq<Step>, s: Sys, c: Call, n: Node)
    requires Run(ids, run) && Final(ids, run) == s && c.at in s.hosts && Enabled(s, Counting(c))
    requires PublishSteps(n, [], c) == [Counting(c)]
    requires Reached(Apply(s, Counting(c)), c, s.hosts[c.at], s.net, s.hosts, PublishedTo(n, [], c))
    ensures Doing(ids, run, s, c, n, [])
  {
    Extend(ids, run, Counting(c));
  }

  lemma {:induction false} PublishAll(ids: set<uint16>, run: seq<Step>, s: Sys, targets: seq<uint16>, c: Call, n: Node)
    requires Doing(ids, run, s, c, n, []) && n.id == c.at && n.seqCounter + |targets| < WORD - 1 && n.corrCounter < WORD - 1
    ensures Doing(ids, run, s, c, n, targets)
    decreases |targets|
  {
    if targets != [] {
      var most := targets[..|targets| - 1];
      PublishAll(ids, run, s, most, c, n);
      PublishedCounters(n, most, c);
      PublishLast(ids, run, s, targets, c, n);
    }
  }

  /** The method Publish is this run of steps: same tables and counters, same packets sent, nothing else changed. */
  lemma PublishIsSteps(ids: set<uint16>, run: seq<Step>, targets: seq<uint16>, c: Call)
    requires Run(ids, run) && AtHome(Final(ids, run), c.at, |targets| + 1)
    ensures Doing(ids, run, Final(ids, run), c, Numbering(Final(ids, run).hosts[c.at].bus), targets)
  {
    var s := Final(ids, run);
    CountStep(s, c, |targets|);
    CountFirst(ids, run, s, c, Numbering(s.hosts[c.at].bus));
    PublishAll(ids, run, s, targets, c, Numbering(s.hosts[c.at].bus));
  }

  lemma Regroup(a: seq<Step>, b: seq<Step>, c: seq<Step>)
    ensures a + (b + c) == a + b + c
  {
  }

  // ---------------------------------------------------------------- requests

  function JobIn(q: Query): (j: Job) {
    Job(q.corrId, q.service, q.payload, q.qos)
  }

  /** Local: one step. Remote: registered, sent, and taken back and failed when nobody was or can be found. */
  function RequestSteps(n: Node, at: uint16, now: nat, q: Query): (ts: seq<Step>) {
    if q.service in n.services then [Answers(at, now, q)]
    else
      [Asks(at, now, q)] + [Dispatches(at, now, q)] +
      if q.targets == [] && !q.canDiscover then [Step(at, now, GiveUp(q.corrId))] + [Step(at, now, Fail(q.corrId))] else []
  }

  function Answers(at: uint16, now: nat, q: Query): (t: Step) {
    Step(at, now, AskLocal(q.corrId, q.service, q.payload, q.response))
  }

  function Asks(at: uint16, now: nat, q: Query): (t: Step) {
    Step(at, now, Ask(q.corrId, q.service, q.payload, q.qos, q.timeoutMs))
  }

  function Dispatches(at: uint16, now: nat, q: Query): (t: Step) {
    Step(at, now, Action.Dispatch(JobIn(q), q.targets))
  }

  /** What the method says of bus and packets, the drawn id used up, and nothing else changed. */
  function RequestedSys(s: Sys, at: uint16, now: nat, q: Query): (r: Sys)
    requires at in s.hosts
  {
    var h, e := s.hosts[at], RequestedOf(s.hosts[at].bus, q, now);
    Sys(s.hosts[at := h.(bus := e.node, drawn := h.drawn - {q.corrId})], s.net + Elements(e.sent))
  }

  function OutcomeOf(e: Requested): (r: seq<Outcome>) {
    if e.outcome.Some? then [e.outcome.value] else []
  }

  lemma LocalStep(s: Sys, at: uint16, now: nat, q: Query)
    requires AtHome(s, at, 1) && q.corrId in s.hosts[at].drawn && q.service in s.hosts[at].bus.services
    ensures Enabled(s, Answers(at, now, q)) && Apply(s, Answers(at, now, q)) == RequestedSys(s, at, now, q)
    ensures Resolves(s.hosts[at], now, Answers(at, now, q).act, q.corrId) == OutcomeOf(RequestedOf(s.hosts[at].bus, q, now))
  {
    assert Elements([]) == {};
  }

  /** Registered, and a copy at hand. */
  function Registering(h: Host, now: nat, q: Query): (r: Host) {
    h.(bus := Asked(h.bus, q.corrId, q.service, q.payload, q.qos, q.timeoutMs, now), drawn := h.drawn - {q.corrId},
       jobs := h.jobs + multiset{JobIn(q)})
  }

  lemma AskRuns(s: Sys, at: uint16, now: nat, q: Query)
    requires AtHome(s, at, 1) && q.corrId in s.hosts[at].drawn
    ensures var t := Asks(at, now, q);
            Enabled(s, t) && Apply(s, t) == Sys(s.hosts[at := Registering(s.hosts[at], now, q)], s.net)
  {
    var t := Asks(at, now, q);
    assert s.net + Sent(s.hosts[at], now, t.act) == s.net;
  }

  /** And sent. */
  function Dispatching(h: Host, now: nat, q: Query): (r: Host) {
    Registering(h, now, q).(bus := Dispatched(Registering(h, now, q).bus, q.targets), jobs := h.jobs)
  }

  function DispatchingSent(h: Host, now: nat, q: Query): (r: seq<Datagram>) {
    MessageBus.Dispatch(Registering(h, now, q).bus, q.corrId, q.service, q.payload, q.qos.level, q.targets)
  }

  lemma DispatchRuns(s: Sys, h: Host, at: uint16, now: nat, q: Query)
    requires AtHome(s, at, 1) && s.hosts[at] == Registering(h, now, q)
    ensures var t := Dispatches(at, now, q);
            Enabled(s, t) && Apply(s, t) == Sys(s.hosts[at := Dispatching(h, now, q)], s.net + Elements(DispatchingSent(h, now, q)))
  {
    assert h.jobs + multiset{JobIn(q)} - multiset{JobIn(q)} == h.jobs;
  }

  lemma GiveUpRuns(s: Sys, h: Host, at: uint16, now: nat, q: Query)
    requires AtHome(s, at, 0) && s.hosts[at] == Dispatching(h, now, q) && q.targets == [] && q.corrId !in h.failing
    ensures var t, u := Step(at, now, GiveUp(q.corrId)), Step(at, now, Fail(q.corrId));
            Enabled(s, t) && Enabled(Apply(s, t), u) &&
            Resolves(s.hosts[at], now, t.act, q.corrId) == [] && Resolves(Apply(s, t).hosts[at], now, u.act, q.corrId) == [NoProvider] &&
            Apply(Apply(s, t), u) == Sys(s.hosts[at := Dispatching(h, now, q).(bus := Withdrawn(Registering(h, now, q).bus, q.corrId))], s.net)
  {
    var t, u := Step(at, now, GiveUp(q.corrId)), Step(at, now, Fail(q.corrId));
    assert h.failing[q.corrId := NoProvider] - {q.corrId} == h.failing;
    assert s.net + Sent(s.hosts[at], now, t.act) == s.net && s.net + Sent(Apply(s, t).hosts[at], now, u.act) == s.net;
  }

  lemma OutcomesMore(ids: set<uint16>, run: seq<Step>, t: Step, c: uint32)
    requires Run(ids, run) && Enabled(Final(ids, run), t)
    ensures Run(ids, run + [t]) && Final(ids, run + [t]) == Apply(Final(ids, run), t)
    ensures Outcomes(ids, run + [t], t.at, c) == Outcomes(ids, run, t.at, c) + Resolves(Final(ids, run).hosts[t.at], t.now, t.act, c)
  {
    Extend(ids, run, t);
  }

  /** A drawn id has no promise anywhere yet. */
  lemma DrawnIsFree(ids: set<uint16>, run: seq<Step>, at: uint16, c: uint32)
    requires Run(ids, run) && at in Final(ids, run).hosts && c in Final(ids, run).hosts[at].drawn
    ensures at in ids && c !in Final(ids, run).hosts[at].failing && c !in Final(ids, run).hosts[at].bus.requests
    ensures Outcomes(ids, run, at, c) == []
  {
    SameHosts(ids, run);
    PromiseLedger(ids, run, at, c);
  }

  /** The run with `ts` ends in r and has given c's promise exactly these outcomes. */
  predicate Comes(ids: set<uint16>, run: seq<Step>, ts: seq<Step>, r: Sys, at: uint16, c: uint32, outcomes: seq<Outcome>) {
    Run(ids, run + ts) && Final(ids, run + ts) == r && Outcomes(ids, run + ts, at, c) == outcomes
  }

  /** From s, two steps of the same node lead to r and give c's promise these outcomes. */
  predicate Steps(s: Sys, t: Step, u: Step, r: Sys, c: uint32, outcomes: seq<Outcome>) {
    Enabled(s, t) && Enabled(Apply(s, t), u) && t.at == u.at && Apply(Apply(s, t), u) == r &&
    Resolves(s.hosts[t.at], t.now, t.act, c) + Resolves(Apply(s, t).hosts[u.at], u.now, u.act, c) == outcomes
  }

  lemma ComesOn(ids: set<uint16>, run: seq<Step>, ts: seq<Step>, s: Sys, c: uint32, outcomes: seq<Outcome>, t: Step)
    requires Comes(ids, run, ts, s, t.at, c, outcomes) && Enabled(s, t)
    ensures Comes(ids, run, ts + [t], Apply(s, t), t.at, c, outcomes + Resolves(s.hosts[t.at], t.now, t.act, c))
  {
    OutcomesMore(ids, run + ts, t, c);
    Regroup(run, ts, [t]);
  }

  lemma ComesTwo(ids: set<uint16>, run: seq<Step>, ts: seq<Step>, s: Sys, c: uint32, t: Step, u: Step, r: Sys, outcomes: seq<Outcome>)
    requires Comes(ids, run, ts, s, t.at, c, []) && Steps(s, t, u, r, c, outcomes)
    ensures Comes(ids, run, ts + ([t] + [u]), r, t.at, c, outcomes)
  {
    ComesOn(ids, run, ts, s, c, [], t);
    ComesOn(ids, run, ts + [t], Apply(s, t), c, Resolves(s.hosts[t.at], t.now, t.act, c), u);
    Regroup(ts, [t], [u]);
  }

  function AskedSys(s: Sys, at: uint16, now: nat, q: Query): (r: Sys)
    requires at in s.hosts
  {
    Sys(s.hosts[at := Dispatching(s.hosts[at], now, q)], s.net + Elements(DispatchingSent(s.hosts[at], now, q)))
  }

  lemma AskThenDispatch(s: Sys, at: uint16, now: nat, q: Query)
    requires AtHome(s, at, 1) && q.corrId in s.hosts[at].drawn && q.corrId !in s.hosts[at].bus.requests
    ensures Steps(s, Asks(at, now, q), Dispatches(at, now, q), AskedSys(s, at, now, q), q.corrId, [])
  {
    AskRuns(s, at, now, q);
    DispatchRuns(Apply(s, Asks(at, now, q)), s.hosts[at], at, now, q);
  }

  lemma GiveUpThenFail(s: Sys, at: uint16, now: nat, q: Query)
    requires AtHome(s, at, 1) && q.corrId !in s.hosts[at].failing && q.targets == [] && !q.canDiscover
    requires q.service !in s.hosts[at].bus.services
    ensures Steps(AskedSys(s, at, now, q), Step(at, now, GiveUp(q.corrId)), Step(at, now, Fail(q.corrId)),
                  RequestedSys(s, at, now, q), q.corrId, [NoProvider])
  {
    var r := AskedSys(s, at, now, q);
    GiveUpRuns(r, s.hosts[at], at, now, q);
    assert DispatchingSent(s.hosts[at], now, q) == [] && Elements([]) == {};
    assert r.net == s.net;
  }

  lemma NothingMore(s: Sys, at: uint16, now: nat, q: Query)
    requires at in s.hosts && q.service !in s.hosts[at].bus.services && (q.targets != [] || q.canDiscover)
    ensures AskedSys(s, at, now, q) == RequestedSys(s, at, now, q) && RequestedOf(s.hosts[at].bus, q, now).outcome == None
  {
  }

  /** The method SendRequest is these steps: same bus, packets and outcome, the drawn id used up, nothing else changed. */
  lemma RequestIsSteps(ids: set<uint16>, run: seq<Step>, at: uint16, now: nat, q: Query)
    requires Run(ids, run) && AtHome(Final(ids, run), at, 1) && q.corrId in Final(ids, run).hosts[at].drawn
    ensures var s := Final(ids, run);
            Comes(ids, run, RequestSteps(s.hosts[at].bus, at, now, q), RequestedSys(s, at, now, q), at, q.corrId,
                  OutcomeOf(RequestedOf(s.hosts[at].bus, q, now)))
  {
    var s := Final(ids, run);
    DrawnIsFree(ids, run, at, q.corrId);
    NothingYet(ids, run, at, q.corrId);
    if q.service in s.hosts[at].bus.services {
      LocalStep(s, at, now, q);
      ComesOn(ids, run, [], s, q.corrId, [], Answers(at, now, q));
    } else {
      AskThenDispatch(s, at, now, q);
      ComesTwo(ids, run, [], s, q.corrId, Asks(at, now, q), Dispatches(at, now, q), AskedSys(s, at, now, q), []);
      RemoteAsked(ids, run, s, at, now, q);
    }
  }

  lemma NothingYet(ids: set<uint16>, run: seq<Step>, at: uint16, c: uint32)
    requires Run(ids, run) && Outcomes(ids, run, at, c) == []
    ensures Comes(ids, run, [], Final(ids, run), at, c, [])
  {
    assert run + [] == run;
  }

  lemma RemoteAsked(ids: set<uint16>, run: seq<Step>, s: Sys, at: uint16, now: nat, q: Query)
    requires AtHome(s, at, 1) && q.service !in s.hosts[at].bus.services && q.corrId !in s.hosts[at].failing
    requires Comes(ids, run, [] + ([Asks(at, now, q)] + [Dispatches(at, now, q)]), AskedSys(s, at, now, q), at, q.corrId, [])
    ensures Comes(ids, run, RequestSteps(s.hosts[at].bus, at, now, q), RequestedSys(s, at, now, q), at, q.corrId,
                  OutcomeOf(RequestedOf(s.hosts[at].bus, q, now)))
  {
    var ts := [Asks(at, now, q)] + [Dispatches(at, now, q)];
    assert [] + ts == ts && ts + [] == ts;
    if q.targets == [] && !q.canDiscover {
      GiveUpThenFail(s, at, now, q);
      ComesTwo(ids, run, ts, AskedSys(s, at, now, q), q.corrId, Step(at, now, GiveUp(q.corrId)), Step(at, now, Fail(q.corrId)),
               RequestedSys(s, at, now, q), [NoProvider]);
    } else {
      NothingMore(s, at, now, q);
    }
  }
}
