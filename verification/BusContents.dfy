/**
  What is on the network of BusNet is what was published and asked, addressed to whom it was meant for; and all of it
  gets there.
*/
module BusContents {
  import opened Words
  import opened Packets
  import opened MessageBus
  import opened BusNet
  import opened QosDelivery
  import opened RequestReply
  import opened BusCalls
  import Q = QosEngine

  // ---------------------------------------------------------------- publications

  /** Step i is p's send of this very packet: its target, level, topic and payload, under the number p's counter had. */
  predicate SendsAt(ids: set<uint16>, run: seq<Step>, i: nat, x: Datagram)
    requires Run(ids, run) && i < |run|
  {
    var t := run[i];
    x.packet.Publish? && t.at == x.from && t.act.Send? && t.act.to == x.to && t.act.qos.level == x.packet.level &&
    t.act.topic == x.packet.topic && t.act.payload == x.packet.payload &&
    Before(ids, run, i).hosts[t.at].bus.seqCounter == x.packet.seqId
  }

  ghost predicate WasSent(ids: set<uint16>, run: seq<Step>, x: Datagram)
    requires Run(ids, run)
  {
    exists i: nat :: i < |run| && SendsAt(ids, run, i, x)
  }

  lemma SentEarlier(ids: set<uint16>, run: seq<Step>, x: Datagram)
    requires Run(ids, run) && run != [] && WasSent(ids, Past(run), x)
    ensures WasSent(ids, run, x)
  {
    var i: nat :| i < |Past(run)| && SendsAt(ids, Past(run), i, x);
    assert Past(run)[..i] == run[..i] && Past(run)[i] == run[i];
    assert SendsAt(ids, run, i, x);
  }

  /** Every PUBLISH on the network carries topic, payload and level of a send its sender made to that target under that number. */
  lemma {:induction false} PublishesWereSent(ids: set<uint16>, run: seq<Step>, x: Datagram)
    requires Run(ids, run) && x in Final(ids, run).net && x.packet.Publish?
    ensures WasSent(ids, run, x)
    decreases |run|
  {
    if run != [] {
      var s, t := Final(ids, Past(run)), Last(run);
      if x in s.net {
        PublishesWereSent(ids, Past(run), x);
        SentEarlier(ids, run, x);
      } else {
        RunKeepsHosts(ids, Past(run));
        SentHasCause(s.hosts[t.at], t.at, s.net, t.now, t.act, x);
        assert SendsAt(ids, run, |run| - 1, x);
      }
    }
  }

  /** So whatever is routed was published: to this node, with this topic, payload and level, before it was routed. */
  lemma RoutedWasPublished(ids: set<uint16>, run: seq<Step>, j: nat, r: uint16, p: uint16, s: uint32)
    requires Run(ids, run) && j < |run| && Routes(ids, run, j, r, p, s)
    ensures Run(ids, run[..j]) && run[j].act.d.from == p && run[j].act.d.packet.seqId == s && WasSent(ids, run[..j], run[j].act.d)
  {
    assert Enabled(Before(ids, run, j), run[j]);
    PublishesWereSent(ids, run[..j], run[j].act.d);
  }

  /** The message as target `to` gets it. */
  function MessageTo(c: Call, to: uint16, seqId: uint32): (x: Datagram) {
    Datagram(c.at, to, Packet.Publish(seqId, c.qos.level, c.topic, c.payload))
  }

  /** x is on the network and, when it is to be confirmed, in its sender's table. */
  predicate OnTheWay(s: Sys, x: Datagram, qos: Q.Profile, now: nat)
    requires Numbered(x.packet)
  {
    x.from in s.hosts && x in s.net && (qos.level != BestEffort ==> HasEntry(s.hosts[x.from].bus.pending, x.packet.seqId, x, qos, now))
  }

  lemma PublishedGives(n: Node, targets: seq<uint16>, c: Call, k: nat)
    requires n.id == c.at && n.seqCounter + |targets| < WORD && k < |targets|
    ensures var r, x := PublishedTo(n, targets, c), MessageTo(c, targets[k], n.seqCounter + k);
            |r.1| == |targets| && r.1[k] == x && (c.qos.level != BestEffort ==> HasEntry(r.0.pending, n.seqCounter + k, x, c.qos, c.now))
  {
    PublishedPackets(n, targets, c.qos, c.topic, c.payload, c.now);
    PublishedTable(n, targets, c.qos, c.topic, c.payload, c.now);
    WrapSmall(n.seqCounter + k);
  }

  lemma ReachedHas(s: Sys, c: Call, h: Host, net: set<Datagram>, hosts: map<uint16, Host>, n: Node, targets: seq<uint16>, k: nat)
    requires n.id == c.at && n.seqCounter + |targets| < WORD && k < |targets|
    requires Reached(s, c, h, net, hosts, PublishedTo(n, targets, c))
    ensures OnTheWay(s, MessageTo(c, targets[k], n.seqCounter + k), c.qos, c.now)
  {
    PublishedGives(n, targets, c, k);
    assert PublishedTo(n, targets, c).1[k] in Elements(PublishedTo(n, targets, c).1);
  }

  /** With the steps of the call, the message to target k is on its way. */
  predicate Reaches(ids: set<uint16>, run: seq<Step>, c: Call, n: Node, targets: seq<uint16>, k: nat)
    requires k < |targets|
  {
    var after := run + PublishSteps(n, targets, c);
    n.seqCounter + k < WORD && Run(ids, after) &&
    OnTheWay(Final(ids, after), MessageTo(c, targets[k], n.seqCounter + k), c.qos, c.now)
  }

  /** A call of publish has put the message on the network for every target, and registered it when it is to be confirmed. */
  lemma PublishReaches(ids: set<uint16>, run: seq<Step>, targets: seq<uint16>, c: Call, k: nat)
    requires Run(ids, run) && AtHome(Final(ids, run), c.at, |targets| + 1) && k < |targets|
    ensures Reaches(ids, run, c, Numbering(Final(ids, run).hosts[c.at].bus), targets, k)
  {
    NumberedHome(Final(ids, run), c, |targets|);
    PublishIsSteps(ids, run, targets, c);
    DoingReaches(ids, run, Final(ids, run), c, Numbering(Final(ids, run).hosts[c.at].bus), targets, k);
  }

  lemma NumberedHome(s: Sys, c: Call, room: nat)
    requires AtHome(s, c.at, room + 1)
    ensures var n := Numbering(s.hosts[c.at].bus); n.id == c.at && n.seqCounter + room < WORD
  {
  }

  lemma DoingReaches(ids: set<uint16>, run: seq<Step>, s: Sys, c: Call, n: Node, targets: seq<uint16>, k: nat)
    requires Doing(ids, run, s, c, n, targets) && n.id == c.at && n.seqCounter + |targets| < WORD && k < |targets|
    ensures Reaches(ids, run, c, n, targets, k)
  {
    ReachedHas(Final(ids, run + PublishSteps(n, targets, c)), c, s.hosts[c.at], s.net, s.hosts, n, targets, k);
  }

  // ---------------------------------------------------------------- requests

  /** The REQUEST that carries j to node r. */
  predicate Brings(x: Datagram, n: uint16, r: uint16, j: Job) {
    x.from == n && x.to == r && x.packet.Request? && x.packet.corrId == j.corrId && x.packet.level == j.qos.level &&
    x.packet.topic == "$SVC/" + j.service && x.packet.payload == j.payload
  }

  lemma DispatchBrings(s: Sys, t: Step, k: nat)
    requires HostsOk(s) && Enabled(s, t) && t.act.Dispatch? && k < |t.act.targets|
    ensures exists x :: x in Apply(s, t).net && Brings(x, t.at, t.act.targets[k], t.act.job)
  {
    var b, j := s.hosts[t.at].bus, t.act.job;
    DispatchedPackets(b, j.corrId, j.service, j.payload, j.qos.level, t.act.targets);
    var x := MessageBus.Dispatch(b, j.corrId, j.service, j.payload, j.qos.level, t.act.targets)[k];
    assert x in Sent(s.hosts[t.at], t.now, t.act) && Brings(x, t.at, t.act.targets[k], j);
  }

  /** Once step i has dispatched a request, every one of its targets has the REQUEST addressed to it on the network for good. */
  lemma DispatchReaches(ids: set<uint16>, run: seq<Step>, i: nat, k: nat)
    requires Run(ids, run) && i < |run| && run[i].act.Dispatch? && k < |run[i].act.targets|
    ensures exists x :: x in Final(ids, run).net && Brings(x, run[i].at, run[i].act.targets[k], run[i].act.job)
  {
    var s := Before(ids, run, i);
    RunKeepsHosts(ids, run[..i]);
    DispatchBrings(s, run[i], k);
    OneStep(ids, run, i);
    NetGrows(ids, run, i + 1);
    var x :| x in Apply(s, run[i]).net && Brings(x, run[i].at, run[i].act.targets[k], run[i].act.job);
  }

  /** A call of sendRequest without a local handler asks every target. */
  lemma RequestReaches(ids: set<uint16>, run: seq<Step>, at: uint16, now: nat, q: Query, k: nat)
    requires Run(ids, run) && AtHome(Final(ids, run), at, 1) && q.corrId in Final(ids, run).hosts[at].drawn
    requires q.service !in Final(ids, run).hosts[at].bus.services && k < |q.targets|
    ensures var after := run + RequestSteps(Final(ids, run).hosts[at].bus, at, now, q);
            Run(ids, after) && exists x :: x in Final(ids, after).net && Brings(x, at, q.targets[k], JobIn(q))
  {
    var s := Final(ids, run);
    RequestIsSteps(ids, run, at, now, q);
    AskedOfAll(s, at, now, q, k);
  }

  lemma AskedOfAll(s: Sys, at: uint16, now: nat, q: Query, k: nat)
    requires AtHome(s, at, 1) && q.service !in s.hosts[at].bus.services && k < |q.targets|
    ensures exists x :: x in RequestedSys(s, at, now, q).net && Brings(x, at, q.targets[k], JobIn(q))
  {
    var b := s.hosts[at].bus;
    var asked := Asked(b, q.corrId, q.service, q.payload, q.qos, q.timeoutMs, now);
    DispatchedPackets(asked, q.corrId, q.service, q.payload, q.qos.level, q.targets);
    var x := MessageBus.Dispatch(asked, q.corrId, q.service, q.payload, q.qos.level, q.targets)[k];
    assert x in RequestedOf(b, q, now).sent;
    assert Brings(x, at, q.targets[k], JobIn(q));
  }
}
