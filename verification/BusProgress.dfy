/**
  No table entry of BusNet gets stuck: from every reachable state, the deliveries the protocol waits for clear
  it, whatever was lost, repeated or overtaken before.
*/
module BusProgress {
  import opened Words
  import opened Packets
  import opened MessageBus
  import opened BusNet
  import opened QosDelivery
  import Q = QosEngine
  import D = DedupWindow

  /** Delivering d, which the network holds, to its addressee. */
  function Deliver(d: Datagram, now: nat, response: Bytes): (t: Step) {
    Step(d.to, now, Receive(d, response))
  }

  /** What the deliveries of a handshake need to know of the two nodes. */
  predicate Pair(s: Sys, p: uint16, r: uint16) {
    p != r && p in s.hosts && r in s.hosts && s.hosts[p].bus.id == p && s.hosts[r].bus.id == r &&
    Fresh(s.hosts[p]) && Fresh(s.hosts[r])
  }

  lemma BothAtHome(ids: set<uint16>, run: seq<Step>, n: uint16, r: uint16)
    requires Run(ids, run) && n in Final(ids, run).hosts && r in Final(ids, run).hosts && n != r
    requires Fresh(Final(ids, run).hosts[n]) && Fresh(Final(ids, run).hosts[r])
    ensures Pair(Final(ids, run), n, r)
    ensures HostOk(Final(ids, run).hosts[n], n, Final(ids, run).net)
  {
    RunKeepsHosts(ids, run);
    assert HostOk(Final(ids, run).hosts[r], r, Final(ids, run).net);
  }

  lemma DeliverPublish(s: Sys, p: uint16, r: uint16, d: Datagram, now: nat)
    requires Pair(s, p, r) && d in s.net && d.from == p && d.to == r && d.packet.Publish?
    ensures Enabled(s, Deliver(d, now, []))
    ensures var q := Apply(s, Deliver(d, now, []));
            Pair(q, p, r) && q.hosts[p] == s.hosts[p] &&
            (d.packet.level == ExactlyOnce ==> Datagram(r, p, Pubrec(d.packet.seqId)) in q.net) &&
            (d.packet.level == Reliable ==> Datagram(r, p, Ack(d.packet.seqId)) in q.net)
  {
    ElementsOfOne(Datagram(r, p, Pubrec(d.packet.seqId)));
    ElementsOfOne(Datagram(r, p, Ack(d.packet.seqId)));
  }

  lemma DeliverPubrec(s: Sys, p: uint16, r: uint16, n: uint32, now: nat)
    requires Pair(s, p, r) && Datagram(r, p, Pubrec(n)) in s.net
    ensures Enabled(s, Deliver(Datagram(r, p, Pubrec(n)), now, []))
    ensures var q := Apply(s, Deliver(Datagram(r, p, Pubrec(n)), now, []));
            Pair(q, p, r) && Datagram(p, r, Pubrel(n)) in q.net &&
            q.hosts[p].bus.pending == s.hosts[p].bus.pending - {n} && n in q.hosts[p].bus.pendingRel
  {
    ElementsOfOne(Datagram(p, r, Pubrel(n)));
  }

  lemma DeliverPubrel(s: Sys, p: uint16, r: uint16, n: uint32, now: nat)
    requires Pair(s, p, r) && Datagram(p, r, Pubrel(n)) in s.net
    ensures Enabled(s, Deliver(Datagram(p, r, Pubrel(n)), now, []))
    ensures var q := Apply(s, Deliver(Datagram(p, r, Pubrel(n)), now, []));
            Pair(q, p, r) && Datagram(r, p, Pubcomp(n)) in q.net && q.hosts[p] == s.hosts[p]
  {
    ElementsOfOne(Datagram(r, p, Pubcomp(n)));
  }

  lemma DeliverPubcomp(s: Sys, p: uint16, r: uint16, n: uint32, now: nat)
    requires Pair(s, p, r) && Datagram(r, p, Pubcomp(n)) in s.net
    ensures Enabled(s, Deliver(Datagram(r, p, Pubcomp(n)), now, []))
    ensures var q := Apply(s, Deliver(Datagram(r, p, Pubcomp(n)), now, []));
            p in q.hosts && q.hosts[p].bus.pending == s.hosts[p].bus.pending &&
            q.hosts[p].bus.pendingRel == s.hosts[p].bus.pendingRel - {n}
  {
  }

  /** The run goes on with deliveries made at `now`, of which d is the last. */
  predicate Deliveries(run: seq<Step>, after: seq<Step>, d: Datagram, now: nat) {
    run < after && after[..|run|] == run && after[|after| - 1] == Deliver(d, now, []) &&
    forall k :: |run| <= k < |after| ==> after[k].now == now && after[k].act.Receive?
  }

  /** The run goes on with the four deliveries of a handshake. */
  function WithHandshake(run: seq<Step>, d: Datagram, now: nat): (after: seq<Step>)
    ensures Deliveries(run, after, Datagram(d.to, d.from, Pubcomp(d.packet.seqId)), now) && after[|run|] == Deliver(d, now, [])
  {
    var p, r, n := d.from, d.to, d.packet.seqId;
    run + [Deliver(d, now, [])] + [Deliver(Datagram(r, p, Pubrec(n)), now, [])] +
    [Deliver(Datagram(p, r, Pubrel(n)), now, [])] + [Deliver(Datagram(r, p, Pubcomp(n)), now, [])]
  }

  /**
    An ExactlyOnce publication still in its sender's table: four deliveries, possible in every reachable state,
    take it off both tables, and the first of them routes it unless the filter has a reason.
  */
  lemma HandshakeCompletes(ids: set<uint16>, run: seq<Step>, p: uint16, n: uint32, now: nat)
    requires Run(ids, run) && p in Final(ids, run).hosts && n in Final(ids, run).hosts[p].bus.pending
    requires var d := Final(ids, run).hosts[p].bus.pending[n].data;
             d.packet.Publish? && d.packet.level == ExactlyOnce && d.to != p && d.to in Final(ids, run).hosts &&
             Fresh(Final(ids, run).hosts[p]) && Fresh(Final(ids, run).hosts[d.to])
    ensures var s, d := Final(ids, run), Final(ids, run).hosts[p].bus.pending[n].data;
            var after := WithHandshake(run, d, now);
            Run(ids, after) && p in Final(ids, after).hosts &&
            n !in Final(ids, after).hosts[p].bus.pending && n !in Final(ids, after).hosts[p].bus.pendingRel &&
            (Routes(ids, after, |run|, d.to, p, n) <==> !Filtered(s.hosts[d.to].bus, p, d.packet))
  {
    var d := Final(ids, run).hosts[p].bus.pending[n].data;
    BothAtHome(ids, run, p, d.to);
    HandshakeRuns(ids, run, d, now);
  }

  lemma HandshakeRuns(ids: set<uint16>, run: seq<Step>, d: Datagram, now: nat)
    requires Run(ids, run) && Pair(Final(ids, run), d.from, d.to) && d in Final(ids, run).net
    requires d.packet.Publish? && d.packet.level == ExactlyOnce
    ensures var after := WithHandshake(run, d, now);
            Run(ids, after) && d.from in Final(ids, after).hosts &&
            d.packet.seqId !in Final(ids, after).hosts[d.from].bus.pending &&
            d.packet.seqId !in Final(ids, after).hosts[d.from].bus.pendingRel
  {
    var p, r, n := d.from, d.to, d.packet.seqId;
    var t1, t2 := Deliver(d, now, []), Deliver(Datagram(r, p, Pubrec(n)), now, []);
    PublishAndPubrec(ids, run, d, now);
    PubrelAndPubcomp(ids, run + [t1] + [t2], p, r, n, now);
  }

  lemma PublishAndPubrec(ids: set<uint16>, run: seq<Step>, d: Datagram, now: nat)
    requires Run(ids, run) && Pair(Final(ids, run), d.from, d.to) && d in Final(ids, run).net
    requires d.packet.Publish? && d.packet.level == ExactlyOnce
    ensures var p, r, n := d.from, d.to, d.packet.seqId;
            var after := run + [Deliver(d, now, [])] + [Deliver(Datagram(r, p, Pubrec(n)), now, [])];
            Run(ids, after) && Pair(Final(ids, after), p, r) && Datagram(p, r, Pubrel(n)) in Final(ids, after).net &&
            n !in Final(ids, after).hosts[p].bus.pending
  {
    var p, r, n := d.from, d.to, d.packet.seqId;
    var t1, t2 := Deliver(d, now, []), Deliver(Datagram(r, p, Pubrec(n)), now, []);
    DeliverPublish(Final(ids, run), p, r, d, now);
    Extend(ids, run, t1);
    DeliverPubrec(Final(ids, run + [t1]), p, r, n, now);
    Extend(ids, run + [t1], t2);
  }

  lemma PubrelAndPubcomp(ids: set<uint16>, run: seq<Step>, p: uint16, r: uint16, n: uint32, now: nat)
    requires Run(ids, run) && Pair(Final(ids, run), p, r) && Datagram(p, r, Pubrel(n)) in Final(ids, run).net
    ensures var after := run + [Deliver(Datagram(p, r, Pubrel(n)), now, [])] + [Deliver(Datagram(r, p, Pubcomp(n)), now, [])];
            Run(ids, after) && p in Final(ids, after).hosts &&
            Final(ids, after).hosts[p].bus.pending == Final(ids, run).hosts[p].bus.pending &&
            n !in Final(ids, after).hosts[p].bus.pendingRel
  {
    var t3, t4 := Deliver(Datagram(p, r, Pubrel(n)), now, []), Deliver(Datagram(r, p, Pubcomp(n)), now, []);
    DeliverPubrel(Final(ids, run), p, r, n, now);
    Extend(ids, run, t3);
    DeliverPubcomp(Final(ids, run + [t3]), p, r, n, now);
    Extend(ids, run + [t3], t4);
  }

  lemma DeliverAck(s: Sys, p: uint16, r: uint16, n: uint32, now: nat)
    requires Pair(s, p, r) && Datagram(r, p, Ack(n)) in s.net
    ensures Enabled(s, Deliver(Datagram(r, p, Ack(n)), now, []))
    ensures var q := Apply(s, Deliver(Datagram(r, p, Ack(n)), now, []));
            p in q.hosts && q.hosts[p].bus.pending == s.hosts[p].bus.pending - {n}
  {
  }

  /** The run goes on with the delivery of a packet and of its ACK. */
  function WithReply(run: seq<Step>, d: Datagram, now: nat): (after: seq<Step>)
    ensures Deliveries(run, after, Datagram(d.to, d.from, Ack(d.packet.seqId)), now) && after[|run|] == Deliver(d, now, [])
  {
    run + [Deliver(d, now, [])] + [Deliver(Datagram(d.to, d.from, Ack(d.packet.seqId)), now, [])]
  }

  lemma PublishAndAck(ids: set<uint16>, run: seq<Step>, d: Datagram, now: nat)
    requires Run(ids, run) && Pair(Final(ids, run), d.from, d.to) && d in Final(ids, run).net
    requires d.packet.Publish? && d.packet.level == Reliable
    ensures var after := WithReply(run, d, now);
            Run(ids, after) && d.from in Final(ids, after).hosts && d.packet.seqId !in Final(ids, after).hosts[d.from].bus.pending
  {
    var t1 := Deliver(d, now, []);
    DeliverPublish(Final(ids, run), d.from, d.to, d, now);
    Extend(ids, run, t1);
    DeliverAck(Final(ids, run + [t1]), d.from, d.to, d.packet.seqId, now);
    Extend(ids, run + [t1], Deliver(Datagram(d.to, d.from, Ack(d.packet.seqId)), now, []));
  }

  /** A Reliable publication: two deliveries route it and take it off the table. */
  lemma AckCompletes(ids: set<uint16>, run: seq<Step>, p: uint16, n: uint32, now: nat)
    requires Run(ids, run) && p in Final(ids, run).hosts && n in Final(ids, run).hosts[p].bus.pending
    requires var d := Final(ids, run).hosts[p].bus.pending[n].data;
             d.packet.Publish? && d.packet.level == Reliable && d.to != p && d.to in Final(ids, run).hosts &&
             Fresh(Final(ids, run).hosts[p]) && Fresh(Final(ids, run).hosts[d.to])
    ensures var d := Final(ids, run).hosts[p].bus.pending[n].data;
            var after := WithReply(run, d, now);
            Run(ids, after) && p in Final(ids, after).hosts && n !in Final(ids, after).hosts[p].bus.pending &&
            Routes(ids, after, |run|, d.to, p, n)
  {
    var d := Final(ids, run).hosts[p].bus.pending[n].data;
    BothAtHome(ids, run, p, d.to);
    PublishAndAck(ids, run, d, now);
    assert WithReply(run, d, now)[..|run|] == run;
  }

  // ---------------------------------------------------------------- the second half of a handshake

  /** A PUBREL entry, with or without its PUBLISH entry: two deliveries take it off its table. */
  lemma PubrelCompletes(ids: set<uint16>, run: seq<Step>, p: uint16, n: uint32, now: nat)
    requires Run(ids, run) && p in Final(ids, run).hosts && n in Final(ids, run).hosts[p].bus.pendingRel
    requires var d := Final(ids, run).hosts[p].bus.pendingRel[n].data;
             d.to != p && d.to in Final(ids, run).hosts && Fresh(Final(ids, run).hosts[p]) && Fresh(Final(ids, run).hosts[d.to])
    ensures var r := Final(ids, run).hosts[p].bus.pendingRel[n].data.to;
            var after := run + [Deliver(Datagram(p, r, Pubrel(n)), now, [])] + [Deliver(Datagram(r, p, Pubcomp(n)), now, [])];
            Run(ids, after) && p in Final(ids, after).hosts && n !in Final(ids, after).hosts[p].bus.pendingRel
  {
    var d := Final(ids, run).hosts[p].bus.pendingRel[n].data;
    BothAtHome(ids, run, p, d.to);
    assert d == Datagram(p, d.to, Pubrel(n));
    PubrelAndPubcomp(ids, run, p, d.to, n, now);
  }

  // ---------------------------------------------------------------- replies

  lemma DeliverReply(s: Sys, p: uint16, r: uint16, d: Datagram, now: nat)
    requires Pair(s, p, r) && d in s.net && d.from == p && d.to == r && d.packet.Reply? && AtLeastReliable(d.packet.level)
    requires !Filtered(s.hosts[r].bus, p, d.packet)
    ensures Enabled(s, Deliver(d, now, []))
    ensures var q := Apply(s, Deliver(d, now, []));
            Pair(q, p, r) && q.hosts[p] == s.hosts[p] && Datagram(r, p, Ack(d.packet.seqId)) in q.net
  {
    ElementsOfOne(Datagram(r, p, Ack(d.packet.seqId)));
  }

  /** A reply the requester's filter lets through is acknowledged and taken off the table by two deliveries. */
  lemma ReplyAcked(ids: set<uint16>, run: seq<Step>, d: Datagram, now: nat)
    requires Run(ids, run) && Pair(Final(ids, run), d.from, d.to) && d in Final(ids, run).net
    requires d.packet.Reply? && AtLeastReliable(d.packet.level) && !Filtered(Final(ids, run).hosts[d.to].bus, d.from, d.packet)
    ensures var after := WithReply(run, d, now);
            Run(ids, after) && d.from in Final(ids, after).hosts && d.packet.seqId !in Final(ids, after).hosts[d.from].bus.pending
  {
    var t1 := Deliver(d, now, []);
    DeliverReply(Final(ids, run), d.from, d.to, d, now);
    Extend(ids, run, t1);
    DeliverAck(Final(ids, run + [t1]), d.from, d.to, d.packet.seqId, now);
    Extend(ids, run + [t1], Deliver(Datagram(d.to, d.from, Ack(d.packet.seqId)), now, []));
  }

  /** Delivering a reply brings its ACK exactly if the filter lets it through and it asks for one. */
  lemma ReplyAckedIff(s: Sys, d: Datagram, now: nat)
    requires Pair(s, d.from, d.to) && d in s.net && d.packet.Reply?
    ensures Enabled(s, Deliver(d, now, []))
    ensures var ack := Datagram(d.to, d.from, Ack(d.packet.seqId));
            ack in Apply(s, Deliver(d, now, [])).net <==>
              ack in s.net || (!Filtered(s.hosts[d.to].bus, d.from, d.packet) && AtLeastReliable(d.packet.level))
  {
    ElementsOfOne(Datagram(d.to, d.from, Ack(d.packet.seqId)));
  }

  predicate Touched(h: Host) {
    h.bus.windows.Keys <= h.bus.touched.Keys
  }

  lemma TouchedStep(h: Host, now: nat, act: Action)
    requires Touched(h)
    ensures Touched(After(h, now, act))
  {
  }

  lemma {:induction false} WindowsTouched(ids: set<uint16>, run: seq<Step>, r: uint16)
    requires Run(ids, run) && r in ids
    ensures r in Final(ids, run).hosts && Touched(Final(ids, run).hosts[r])
    decreases |run|
  {
    SameHosts(ids, run);
    if run != [] {
      WindowsTouched(ids, Past(run), r);
      var s, t := Final(ids, Past(run)), Last(run);
      if t.at == r { TouchedStep(s.hosts[r], t.now, t.act); }
    }
  }

  /** From when on a cleanup finds the window for p idle. */
  function Late(b: Node, p: uint16): (now: nat) {
    if p in b.touched then b.touched[p] + Q.IDLE_TTL_NS + 1 else 0
  }

  lemma Reclaimed(s: Sys, p: uint16, r: uint16, packet: Packet, now: nat)
    requires Pair(s, p, r) && Touched(s.hosts[r]) && Numbered(packet) && now >= Late(s.hosts[r].bus, p)
    ensures var t := Step(r, now, Cleanup);
            Enabled(s, t) && Pair(Apply(s, t), p, r) && Apply(s, t).net == s.net && Apply(s, t).hosts[p] == s.hosts[p] &&
            !Filtered(Apply(s, t).hosts[r].bus, p, packet)
  {
    var t := Step(r, now, Cleanup);
    WindowStep(s.hosts[r], t.now, t.act, p);
    assert Sent(s.hosts[r], t.now, t.act) == {};
    if p !in s.hosts[r].bus.touched { assert WindowOf(s.hosts[r].bus, p) == D.FRESH; }
  }

  /** Entries of the table of unconfirmed packets are publications and replies that ask for confirmation. */
  predicate Confirmable(p: Packet) {
    (p.Publish? || p.Reply?) && AtLeastReliable(p.level)
  }

  predicate TableOk(m: Q.Table) {
    forall k :: k in m ==> Confirmable(m[k].data.packet)
  }

  predicate EntriesOk(h: Host) {
    TableOk(h.bus.pending) && forall x :: x in h.sending ==> Confirmable(x.d.packet)
  }

  lemma TableUpdates(m: Q.Table, k: uint32, d: Datagram, qos: Q.Profile, now: nat, sentAt: nat)
    requires TableOk(m)
    ensures TableOk(m - {k}) && TableOk(Q.Swept(m, now, sentAt))
    ensures k in m ==> TableOk(m[k := Q.Retried(m[k], now)])
    ensures Confirmable(d.packet) ==> TableOk(m[k := Q.Make(k, d, qos, now)])
  {
  }

  lemma EntriesStep(h: Host, net: set<Datagram>, now: nat, act: Action)
    requires EntriesOk(h) && Can(h, net, act)
    ensures EntriesOk(After(h, now, act))
  {
    match act
    case Receive(d, response) => ReceiveEntries(h.bus, d, response, now);
    case AddPending(x) => TableUpdates(h.bus.pending, x.d.packet.seqId, x.d, x.qos, now, now);
    case Sweep(sentAt) => TableUpdates(h.bus.pending, 0, Datagram(0, 0, Nack(0)), Q.DefaultProfile(BestEffort), now, sentAt);
    case _ =>
  }

  lemma ReceiveEntries(n: Node, d: Datagram, response: Bytes, now: nat)
    requires TableOk(n.pending)
    ensures TableOk(Received(n, d, response, now).node.pending)
  {
    if d.packet.Request? {
      var reply := ReplyTo(n, d, d.packet.level, response);
      TableUpdates(n.pending, n.seqCounter, reply, Q.DefaultProfile(d.packet.level), now, now);
      ServedEntries(Checked(n, d.from, d.packet, now), d, response, now);
    } else if !Numbered(d.packet) {
      TableUpdates(n.pending, d.packet.seqId, d, Q.DefaultProfile(BestEffort), now, now);
    }
  }

  lemma ServedEntries(n: Node, d: Datagram, response: Bytes, now: nat)
    requires d.packet.Request? && TableOk(n.pending)
    ensures TableOk(Served(n, d, response, now).node.pending)
  {
    var reply := ReplyTo(n, d, d.packet.level, response);
    TableUpdates(n.pending, n.seqCounter, reply, Q.DefaultProfile(d.packet.level), now, now);
  }

  lemma {:induction false} EntriesConfirmable(ids: set<uint16>, run: seq<Step>, p: uint16)
    requires Run(ids, run) && p in ids
    ensures p in Final(ids, run).hosts && EntriesOk(Final(ids, run).hosts[p])
    decreases |run|
  {
    SameHosts(ids, run);
    if run != [] {
      EntriesConfirmable(ids, Past(run), p);
      var s, t := Final(ids, Past(run)), Last(run);
      if t.at == p { EntriesStep(s.hosts[p], s.net, t.now, t.act); }
    }
  }

  /** At `now` the window that turns the reply d away, if it does, is idle. */
  predicate LateEnough(s: Sys, d: Datagram, now: nat)
    requires d.to in s.hosts && Numbered(d.packet)
  {
    d.packet.Reply? && Filtered(s.hosts[d.to].bus, d.from, d.packet) ==> now >= Late(s.hosts[d.to].bus, d.from)
  }

  /** What takes an entry off the sender's tables for good. */
  function Acknowledgement(d: Datagram): (a: Datagram)
    requires Numbered(d.packet)
  {
    Datagram(d.to, d.from, if d.packet.Publish? && d.packet.level == ExactlyOnce then Pubcomp(d.packet.seqId) else Ack(d.packet.seqId))
  }

  /** A delivery made at `now`, or a cleanup of the addressee's. */
  predicate Helpful(t: Step, d: Datagram, now: nat) {
    t.now == now && (t.act.Receive? || (t.act.Cleanup? && t.at == d.to && d.packet.Reply?))
  }

  /**
    The run goes on at `now` with deliveries, and for a reply perhaps a cleanup, and ends with the delivery of the
    acknowledgement of d.
  */
  predicate Goes(run: seq<Step>, after: seq<Step>, d: Datagram, now: nat)
    requires Numbered(d.packet)
  {
    run < after && after[|after| - 1] == Deliver(Acknowledgement(d), now, []) &&
    forall k :: |run| <= k < |after| ==> Helpful(after[k], d, now)
  }

  /** After which it is in no table of its sender. */
  predicate Clears(ids: set<uint16>, run: seq<Step>, after: seq<Step>, d: Datagram, now: nat)
    requires Numbered(d.packet)
  {
    Goes(run, after, d, now) && Run(ids, after) && d.from in Final(ids, after).hosts && Cleared(Final(ids, after).hosts[d.from].bus, d)
  }

  predicate Cleared(b: Node, d: Datagram)
    requires Numbered(d.packet)
  {
    d.packet.seqId !in b.pending && (Acknowledgement(d).packet.Pubcomp? ==> d.packet.seqId !in b.pendingRel)
  }

  /** The run goes on with a cleanup if the filter is in the way, the delivery of the reply and that of its ACK. */
  function WithClearing(run: seq<Step>, s: Sys, d: Datagram, now: nat): (after: seq<Step>)
    requires d.to in s.hosts && d.packet.Reply?
    ensures Goes(run, after, d, now)
  {
    if Filtered(s.hosts[d.to].bus, d.from, d.packet) then WithReply(run + [Step(d.to, now, Cleanup)], d, now)
    else WithReply(run, d, now)
  }

  /** A reply entry is cleared by two deliveries, after a reclaim of the requester's window if its filter is in the way. */
  lemma ReplyCompletes(ids: set<uint16>, run: seq<Step>, d: Datagram, now: nat)
    requires Run(ids, run) && d.to in ids && Pair(Final(ids, run), d.from, d.to) && d in Final(ids, run).net
    requires d.packet.Reply? && AtLeastReliable(d.packet.level) && LateEnough(Final(ids, run), d, now)
    ensures var after := WithClearing(run, Final(ids, run), d, now);
            Run(ids, after) && d.from in Final(ids, after).hosts && d.packet.seqId !in Final(ids, after).hosts[d.from].bus.pending
  {
    var s := Final(ids, run);
    if Filtered(s.hosts[d.to].bus, d.from, d.packet) {
      var t := Step(d.to, now, Cleanup);
      WindowsTouched(ids, run, d.to);
      Reclaimed(s, d.from, d.to, d.packet, now);
      Extend(ids, run, t);
      ReplyAcked(ids, run + [t], d, now);
    } else {
      ReplyAcked(ids, run, d, now);
    }
  }

  /**
    From every reachable state, every entry of a table of unconfirmed packets, of whatever kind, can be brought
    to its acknowledgement by deliveries alone, or for a reply that is filtered out, a cleanup and deliveries.
  */
  lemma EveryEntryClears(ids: set<uint16>, run: seq<Step>, p: uint16, n: uint32, now: nat)
    requires Run(ids, run) && p in ids && p in Final(ids, run).hosts && n in Final(ids, run).hosts[p].bus.pending
    requires var d := Final(ids, run).hosts[p].bus.pending[n].data;
             d.to != p && d.to in ids && d.to in Final(ids, run).hosts &&
             Fresh(Final(ids, run).hosts[p]) && Fresh(Final(ids, run).hosts[d.to])
    requires var d := Final(ids, run).hosts[p].bus.pending[n].data; Numbered(d.packet) ==> LateEnough(Final(ids, run), d, now)
    ensures var d := Final(ids, run).hosts[p].bus.pending[n].data;
            d.from == p && Numbered(d.packet) && d.packet.seqId == n && exists after :: Clears(ids, run, after, d, now)
  {
    var d := Final(ids, run).hosts[p].bus.pending[n].data;
    EntriesConfirmable(ids, run, p);
    BothAtHome(ids, run, p, d.to);
    if d.packet.Reply? {
      ReplyClears(ids, run, d, now);
    } else {
      PublishClears(ids, run, d, now);
    }
  }

  lemma DeliveriesGo(run: seq<Step>, after: seq<Step>, d: Datagram, now: nat)
    requires Numbered(d.packet) && Deliveries(run, after, Acknowledgement(d), now)
    ensures Goes(run, after, d, now)
  {
  }

  lemma PublishClears(ids: set<uint16>, run: seq<Step>, d: Datagram, now: nat)
    requires Run(ids, run) && Pair(Final(ids, run), d.from, d.to) && d in Final(ids, run).net
    requires d.packet.Publish? && AtLeastReliable(d.packet.level)
    ensures exists after :: Clears(ids, run, after, d, now)
  {
    if d.packet.level == ExactlyOnce {
      HandshakeRuns(ids, run, d, now);
      DeliveriesGo(run, WithHandshake(run, d, now), d, now);
      assert Clears(ids, run, WithHandshake(run, d, now), d, now);
    } else {
      PublishAndAck(ids, run, d, now);
      DeliveriesGo(run, WithReply(run, d, now), d, now);
      assert Clears(ids, run, WithReply(run, d, now), d, now);
    }
  }

  lemma ReplyClears(ids: set<uint16>, run: seq<Step>, d: Datagram, now: nat)
    requires Run(ids, run) && d.to in ids && Pair(Final(ids, run), d.from, d.to) && d in Final(ids, run).net
    requires d.packet.Reply? && AtLeastReliable(d.packet.level) && LateEnough(Final(ids, run), d, now)
    ensures exists after :: Clears(ids, run, after, d, now)
  {
    ReplyCompletes(ids, run, d, now);
    assert Clears(ids, run, WithClearing(run, Final(ids, run), d, now), d, now);
  }
}
