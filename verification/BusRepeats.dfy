/**
  How far "once" goes in BusNet: whatever was routed or handled once can be routed or handled again in every
  reachable state, after the cleanup of an idle window or the expiry of a cached reply.
*/
module BusRepeats {
  import opened Words
  import opened Packets
  import opened MessageBus
  import opened BusNet
  import opened QosDelivery
  import opened RequestReply
  import opened BusProgress
  import opened RequestProgress
  import L = BusLimits
  import Q = QosEngine
  import D = DedupWindow

  lemma ReclaimOpens(h: Host, p: uint16, packet: Packet, now: nat)
    requires Touched(h) && Numbered(packet) && now >= Late(h.bus, p)
    ensures !Filtered(After(h, now, Cleanup).bus, p, packet)
  {
    WindowStep(h, now, Cleanup, p);
    if p !in h.bus.touched { assert WindowOf(h.bus, p) == D.FRESH; }
  }

  /** What was received once is still on the network. */
  lemma StillThere(ids: set<uint16>, run: seq<Step>, i: nat)
    requires Run(ids, run) && i < |run| && run[i].act.Receive?
    ensures run[i].act.d in Final(ids, run).net && run[i].at in Final(ids, run).hosts
    ensures run[i].act.d.to == run[i].at == Final(ids, run).hosts[run[i].at].bus.id
  {
    NetGrows(ids, run, i);
    SameHosts(ids, run);
    SameHosts(ids, run[..i]);
    assert Enabled(Before(ids, run, i), run[i]);
    RunKeepsHosts(ids, run);
    RunKeepsHosts(ids, run[..i]);
    assert HostOk(Final(ids, run).hosts[run[i].at], run[i].at, Final(ids, run).net);
    assert HostOk(Before(ids, run, i).hosts[run[i].at], run[i].at, Before(ids, run, i).net);
  }

  /** The run goes on with a cleanup at r and one more delivery of d. */
  function WithSecond(run: seq<Step>, r: uint16, now: nat, d: Datagram): (after: seq<Step>)
    ensures |after| == |run| + 2 && run <= after && after[|run| + 1] == Step(r, now, Receive(d, []))
    ensures after[..|run| + 1] == run + [Step(r, now, Cleanup)]
  {
    run + [Step(r, now, Cleanup)] + [Step(r, now, Receive(d, []))]
  }

  /** What is appended keeps the clock from going back, if it did not before and `now` is not in the past. */
  predicate OnTime(run: seq<Step>, after: seq<Step>, now: nat) {
    run <= after && (Timed(run) && Until(run, now) ==> Timed(after))
  }

  lemma GoesOnTime(run: seq<Step>, after: seq<Step>, now: nat)
    requires run <= after && forall k :: |run| <= k < |after| ==> after[k].now == now
    ensures OnTime(run, after, now)
  {
    if Timed(run) && Until(run, now) { StaysTimed(run, after, now); }
  }

  /** A publication that was routed can be routed a second time, at any time at which its window is idle. */
  lemma RoutedAgain(ids: set<uint16>, run: seq<Step>, i: nat, r: uint16, p: uint16, s: uint32, now: nat)
    requires Run(ids, run) && i < |run| && Routes(ids, run, i, r, p, s)
    requires r in Final(ids, run).hosts && Fresh(Final(ids, run).hosts[r]) && now >= Late(Final(ids, run).hosts[r].bus, p)
    ensures var after := WithSecond(run, r, now, run[i].act.d);
            Run(ids, after) && OnTime(run, after, now) && Routes(ids, after, i, r, p, s) && Routes(ids, after, |run| + 1, r, p, s)
  {
    var after := WithSecond(run, r, now, run[i].act.d);
    GoesOnTime(run, after, now);
    StillThere(ids, run, i);
    SecondRoute(ids, run, r, run[i].act.d, now);
    SameRoute(ids, run, after, i, r, p, s);
  }

  lemma SecondRoute(ids: set<uint16>, run: seq<Step>, r: uint16, d: Datagram, now: nat)
    requires Run(ids, run) && r in Final(ids, run).hosts && Fresh(Final(ids, run).hosts[r])
    requires d in Final(ids, run).net && d.to == r == Final(ids, run).hosts[r].bus.id && d.packet.Publish?
    requires now >= Late(Final(ids, run).hosts[r].bus, d.from)
    ensures var after := WithSecond(run, r, now, d);
            Run(ids, after) && Routes(ids, after, |run| + 1, r, d.from, d.packet.seqId)
  {
    var h := Final(ids, run).hosts[r];
    SameHosts(ids, run);
    WindowsTouched(ids, run, r);
    ReclaimOpens(h, d.from, d.packet, now);
    Extend(ids, run, Step(r, now, Cleanup));
    Extend(ids, run + [Step(r, now, Cleanup)], Step(r, now, Receive(d, [])));
  }

  lemma SameRoute(ids: set<uint16>, run: seq<Step>, after: seq<Step>, i: nat, r: uint16, p: uint16, s: uint32)
    requires Run(ids, run) && Run(ids, after) && run <= after && i < |run| && Routes(ids, run, i, r, p, s)
    ensures Routes(ids, after, i, r, p, s)
  {
    assert after[..i] == run[..i] && after[i] == run[i];
  }

  predicate AtZero(run: seq<Step>) {
    forall k :: 0 <= k < |run| ==> run[k].now == 0
  }

  /** And there is such a run, of a call of publish, two deliveries and a cleanup. */
  lemma SomeRoutedTwice()
    ensures exists run: seq<Step>, i: nat, j: nat ::
              i < j < |run| && Run(L.IDS, run) && Timed(run) && Routes(L.IDS, run, i, 2, 1, 2) && Routes(L.IDS, run, j, 2, 1, 2) &&
              run[i].act.d.packet.level == ExactlyOnce
  {
    var run := FirstRoute();
    assert Timed(run);
    RoutedAgain(L.IDS, run, 3, 2, 1, 2, Late(Final(L.IDS, run).hosts[2].bus, 1));
  }

  lemma FirstRoute() returns (run: seq<Step>)
    ensures |run| == 4 && AtZero(run) && Run(L.IDS, run) && Routes(L.IDS, run, 3, 2, 1, 2) && run[3] == L.Deliver(2)
    ensures 2 in Final(L.IDS, run).hosts && Fresh(Final(L.IDS, run).hosts[2])
  {
    var first, t := L.Flood(1), L.Deliver(2);
    L.FloodRuns(1);
    L.FloodQuiet(1);
    assert L.OnTheWay(Final(L.IDS, first).net, 1);
    Extend(L.IDS, first, t);
    run := first + [t];
    assert run[..3] == first && run[3] == t;
  }

  // ---------------------------------------------------------------- handlers

  /** When the reply to k is old enough to be forgotten. */
  function Forgotten(b: Node, k: Key): (now: nat) {
    if k in b.cache then b.cache[k].cachedAt + REPLY_TTL_NS else 0
  }

  /** The host after it has offered the service, forgotten old replies and reclaimed idle windows. */
  function Reopened(h: Host, service: string, now: nat): (r: Host) {
    After(After(After(h, now, Offer(service)), now, ExpireCache), now, Cleanup)
  }

  /** At `now` the reply to d can be forgotten and the window of its sender be reclaimed. */
  predicate LongAgo(b: Node, d: Datagram, now: nat)
    requires d.packet.Request?
  {
    now >= Forgotten(b, Key(d.from, d.packet.corrId)) && now >= Late(b, d.from)
  }

  lemma ReopenedRuns(h: Host, d: Datagram, v: Bytes, now: nat)
    requires Touched(h) && d.packet.Request? && LongAgo(h.bus, d, now)
    ensures var r := Reopened(h, ServiceName(d.packet.topic), now);
            r.bus.id == h.bus.id && r.bus.seqCounter == h.bus.seqCounter && r.bus.corrCounter == h.bus.corrCounter &&
            Received(r.bus, d, v, now).ran
  {
    var k := Key(d.from, d.packet.corrId);
    var g := After(After(h, now, Offer(ServiceName(d.packet.topic))), now, ExpireCache);
    assert k !in g.bus.cache && Late(g.bus, d.from) == Late(h.bus, d.from);
    ReclaimOpens(g, d.from, d.packet, now);
  }

  /** The run goes on with those three steps and one more delivery of d. */
  function WithRepeat(run: seq<Step>, r: uint16, d: Datagram, v: Bytes, now: nat): (after: seq<Step>)
    requires d.packet.Request?
    ensures run <= after && |after| == |run| + 4 && after[|run| + 3] == Step(r, now, Receive(d, v))
    ensures forall k :: |run| <= k < |after| ==> after[k].now == now
  {
    run + [Step(r, now, Offer(ServiceName(d.packet.topic)))] + [Step(r, now, ExpireCache)] +
    [Step(r, now, Cleanup)] + [Step(r, now, Receive(d, v))]
  }

  /** A request that was handled can be handled a second time, at any time at which the reply can be forgotten and the window reclaimed. */
  lemma HandledAgain(ids: set<uint16>, run: seq<Step>, i: nat, r: uint16, n: uint16, c: uint32, v: Bytes, now: nat)
    requires Run(ids, run) && i < |run| && HandlerRuns(ids, run, i, r, n, c)
    requires r in Final(ids, run).hosts && Fresh(Final(ids, run).hosts[r]) && LongAgo(Final(ids, run).hosts[r].bus, run[i].act.d, now)
    ensures var after := WithRepeat(run, r, run[i].act.d, v, now);
            Run(ids, after) && OnTime(run, after, now) && HandlerRuns(ids, after, i, r, n, c) && HandlerRuns(ids, after, |run| + 3, r, n, c)
  {
    var d := run[i].act.d;
    var after := WithRepeat(run, r, d, v, now);
    GoesOnTime(run, after, now);
    StillThere(ids, run, i);
    SecondRun(ids, run, r, d, v, now);
    SameHandling(ids, run, after, i, r, n, c);
  }

  lemma SameHandling(ids: set<uint16>, run: seq<Step>, after: seq<Step>, i: nat, r: uint16, n: uint16, c: uint32)
    requires Run(ids, run) && Run(ids, after) && run <= after && i < |run| && HandlerRuns(ids, run, i, r, n, c)
    ensures HandlerRuns(ids, after, i, r, n, c)
  {
    assert after[..i] == run[..i] && after[i] == run[i];
  }

  lemma SecondRun(ids: set<uint16>, run: seq<Step>, r: uint16, d: Datagram, v: Bytes, now: nat)
    requires Run(ids, run) && r in Final(ids, run).hosts && Fresh(Final(ids, run).hosts[r]) && d.packet.Request?
    requires d in Final(ids, run).net && d.to == r == Final(ids, run).hosts[r].bus.id && LongAgo(Final(ids, run).hosts[r].bus, d, now)
    ensures var after := WithRepeat(run, r, d, v, now);
            Run(ids, after) && HandlerRuns(ids, after, |run| + 3, r, d.from, d.packet.corrId)
  {
    SameHosts(ids, run);
    WindowsTouched(ids, run, r);
    ReopenedRuns(Final(ids, run).hosts[r], d, v, now);
    Reopening(ids, run, r, d, v, now);
  }

  lemma Reopening(ids: set<uint16>, run: seq<Step>, r: uint16, d: Datagram, v: Bytes, now: nat)
    requires Run(ids, run) && r in Final(ids, run).hosts && Fresh(Final(ids, run).hosts[r]) && d.packet.Request?
    requires d in Final(ids, run).net && d.to == r == Final(ids, run).hosts[r].bus.id && Touched(Final(ids, run).hosts[r])
    requires LongAgo(Final(ids, run).hosts[r].bus, d, now)
    ensures var h := Final(ids, run).hosts[r]; var after := WithRepeat(run, r, d, v, now);
            Run(ids, after) && r in Before(ids, after, |run| + 3).hosts &&
            Before(ids, after, |run| + 3).hosts[r] == Reopened(h, ServiceName(d.packet.topic), now)
  {
    var h := Final(ids, run).hosts[r];
    var t1, t2 := Step(r, now, Offer(ServiceName(d.packet.topic))), Step(r, now, ExpireCache);
    var t3, t4 := Step(r, now, Cleanup), Step(r, now, Receive(d, v));
    Extend(ids, run, t1);
    Extend(ids, run + [t1], t2);
    Extend(ids, run + [t1] + [t2], t3);
    ReopenedRuns(h, d, v, now);
    Extend(ids, run + [t1] + [t2] + [t3], t4);
    var after := WithRepeat(run, r, d, v, now);
    assert after[..|run| + 3] == run + [t1] + [t2] + [t3];
  }

  // ---------------------------------------------------------------- a request that is handled twice

  function Wish(): (j: Job) {
    Job(1, "s", [], Q.DefaultProfile(Reliable))
  }

  function Prelude(): (run: seq<Step>) {
    [Step(1, 0, Draw)] + [Step(1, 0, Ask(1, "s", [], Wish().qos, 0))] + [Step(2, 0, Offer("s"))]
  }

  predicate Prepared(s: Sys) {
    Pair(s, 1, 2) && s.hosts.Keys == L.IDS && Wish() in s.hosts[1].jobs && s.hosts[1].bus.seqCounter == 1 &&
    s.hosts[2].bus.seqCounter == 1 && "s" in s.hosts[2].bus.services && s.hosts[2].bus.cache == map[] && s.hosts[2].bus.windows == map[]
  }

  predicate Alone(s: Sys) {
    s.hosts.Keys == L.IDS && s.hosts[2] == Booted(2) && s.hosts[1].bus.id == 1 && s.hosts[1].bus.seqCounter == 1 &&
    s.hosts[1].bus.corrCounter <= 2
  }

  lemma DrawFirst(s: Sys)
    requires s == Initial(L.IDS)
    ensures var t := Step(1, 0, Draw); Enabled(s, t) && Alone(Apply(s, t)) && 1 in Apply(s, t).hosts[1].drawn
  {
  }

  lemma AskFirst(s: Sys)
    requires Alone(s) && 1 in s.hosts[1].drawn
    ensures var t := Step(1, 0, Ask(1, "s", [], Wish().qos, 0));
            Enabled(s, t) && Alone(Apply(s, t)) && Wish() in Apply(s, t).hosts[1].jobs
  {
  }

  lemma OfferFirst(s: Sys)
    requires Alone(s) && Wish() in s.hosts[1].jobs
    ensures var t := Step(2, 0, Offer("s")); Enabled(s, t) && Prepared(Apply(s, t))
  {
  }

  lemma PreludeRuns()
    ensures Run(L.IDS, Prelude()) && Prepared(Final(L.IDS, Prelude()))
  {
    var t1, t2, t3 := Step(1, 0, Draw), Step(1, 0, Ask(1, "s", [], Wish().qos, 0)), Step(2, 0, Offer("s"));
    var none: seq<Step> := [];
    DrawFirst(Initial(L.IDS));
    Extend(L.IDS, none, t1);
    AskFirst(Final(L.IDS, none + [t1]));
    Extend(L.IDS, none + [t1], t2);
    OfferFirst(Final(L.IDS, none + [t1] + [t2]));
    Extend(L.IDS, none + [t1] + [t2], t3);
    assert none + [t1] + [t2] + [t3] == Prelude();
  }

  lemma SomeHandledTwice(v: Bytes)
    ensures exists run: seq<Step>, i: nat, j: nat ::
              i < j < |run| && Run(L.IDS, run) && Timed(run) && HandlerRuns(L.IDS, run, i, 2, 1, 1) && HandlerRuns(L.IDS, run, j, 2, 1, 1)
  {
    var run := HandledOnce(v);
    var b, d := Final(L.IDS, run).hosts[2].bus, run[4].act.d;
    var key := Key(d.from, d.packet.corrId);
    HandledAgain(L.IDS, run, 4, 2, 1, 1, v, Forgotten(b, key) + Late(b, d.from));
  }

  lemma Unseen(b: Node, d: Datagram)
    requires b.cache == map[] && b.windows == map[] && d.packet.Request? && ServiceName(d.packet.topic) in b.services
    ensures Runs(b, d) && !Filtered(b, d.from, d.packet)
  {
  }

  /** Node 2 has not seen d, a request of node 1 under id 1, which its handler would answer. */
  predicate Arriving(s: Sys, d: Datagram) {
    Pair(s, 1, 2) && d in s.net && d.from == 1 && d.to == 2 && d.packet.Request? && d.packet.corrId == 1 &&
    Runs(s.hosts[2].bus, d) && !Filtered(s.hosts[2].bus, 1, d.packet) && s.hosts[2].bus.seqCounter == 1
  }

  lemma DispatchFirst(s: Sys)
    requires Prepared(s)
    ensures var t := Step(1, 0, Action.Dispatch(Wish(), [2]));
            Enabled(s, t) && Arriving(Apply(s, t), Ordered(s.hosts[1].bus, Wish(), 2))
  {
    ServiceNameOf("s");
    Unseen(s.hosts[2].bus, Ordered(s.hosts[1].bus, Wish(), 2));
    DispatchTo(s, 1, 2, [2], Wish(), 0);
  }

  lemma RequestOut() returns (run: seq<Step>, d: Datagram)
    ensures |run| == 4 && AtZero(run) && Run(L.IDS, run) && Arriving(Final(L.IDS, run), d)
  {
    PreludeRuns();
    run, d := DispatchNext(Prelude());
  }

  lemma DispatchNext(before: seq<Step>) returns (run: seq<Step>, d: Datagram)
    requires |before| == 3 && AtZero(before) && Run(L.IDS, before) && Prepared(Final(L.IDS, before))
    ensures |run| == 4 && AtZero(run) && Run(L.IDS, run) && Arriving(Final(L.IDS, run), d)
  {
    var s, t := Final(L.IDS, before), Step(1, 0, Action.Dispatch(Wish(), [2]));
    DispatchFirst(s);
    Extend(L.IDS, before, t);
    run, d := before + [t], Ordered(s.hosts[1].bus, Wish(), 2);
  }

  lemma HandledOnce(v: Bytes) returns (run: seq<Step>)
    ensures |run| == 5 && AtZero(run) && Run(L.IDS, run) && HandlerRuns(L.IDS, run, 4, 2, 1, 1)
    ensures 2 in Final(L.IDS, run).hosts && Fresh(Final(L.IDS, run).hosts[2])
  {
    var sent, d := RequestOut();
    var t := Deliver(d, 0, v);
    Extend(L.IDS, sent, t);
    run := sent + [t];
    assert run[..4] == sent && run[4] == t;
    ServedCounters(Final(L.IDS, sent).hosts[2], d, v);
  }

  lemma ServedCounters(h: Host, d: Datagram, v: Bytes)
    requires h.bus.seqCounter < WORD - 2 && h.bus.corrCounter < WORD - 1
    ensures Fresh(After(h, 0, Receive(d, v)))
  {
    ReceiveCounters(h, 0, d, v);
    OneMoreIsFresh(h.bus, After(h, 0, Receive(d, v)).bus);
  }

  lemma OneMoreIsFresh(n: Node, r: Node)
    requires SameIdentity(n, r) && n.seqCounter < WORD - 2
    ensures r.seqCounter < WORD - 1 && r.corrCounter == n.corrCounter
  {
  }
}
