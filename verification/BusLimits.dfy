/**
  A run of BusNet, made of calls of publish and deliveries, in which an ExactlyOnce publication is acknowledged and taken off the sender's table though
  the receiver never routed it: PUBREC goes out before the duplicate filter is asked, and the filter turns away
  whatever is 1024 or more behind.
*/
module BusLimits {
  import opened Words
  import opened Packets
  import opened MessageBus
  import opened BusNet
  import opened QosDelivery
  import opened BusCalls
  import Q = QosEngine
  import D = DedupWindow

  const IDS: set<uint16> := {1, 2}

  /** Enough publications, and not so many that a counter wraps: the k-th has number 2k, the odd ones are for local delivery. */
  predicate Enough(n: nat) {
    D.WINDOW <= 2 * (n - 1) && 2 * n < WORD - 4
  }

  function Exactly(): (q: Q.Profile) {
    Q.DefaultProfile(ExactlyOnce)
  }

  function Message(n: uint32): (d: Datagram) {
    Datagram(1, 2, Publish(n, ExactlyOnce, "", []))
  }

  /** One call of publish with one remote target. */
  function Publication(): (c: Call) {
    Call(1, 0, Exactly(), "", [])
  }

  /** The sender's bus after k calls. */
  function Sender(k: nat): (n: Node) {
    if k == 0 then Booted(1).bus else PublishedTo(Numbering(Sender(k - 1)), [2], Publication()).0
  }

  /** The steps of k calls. */
  function Flood(k: nat): (run: seq<Step>) {
    if k == 0 then [] else Flood(k - 1) + PublishSteps(Numbering(Sender(k - 1)), [2], Publication())
  }

  /** The steps of one call with one target, and what it does. */
  lemma OneTarget(n: Node)
    requires n.id == 1
    ensures PublishedTo(n, [2], Publication()) == (Handed(n, Publication(), 2), [Message(n.seqCounter)])
    ensures PublishSteps(n, [2], Publication()) ==
      [Counting(Publication())] + ([SendTo(Publication(), 2)] + [Register(Publication(), Message(n.seqCounter))])
  {
    var none: seq<uint16> := [2][..0];
    assert PublishTo(n, 2, Exactly(), "", []) == Message(n.seqCounter) && AtLeastReliable(Exactly().level);
    assert [] + [Message(n.seqCounter)] == [Message(n.seqCounter)];
    assert none == [] && PublishedTo(n, none, Publication()) == (n, []);
    PublishedSnoc(n, [2], Publication());
    StepsSnoc(n, [2], Publication());
    assert PublishSteps(n, none, Publication()) == [Counting(Publication())];
  }

  predicate SenderOk(n: Node, k: nat) {
    n.id == 1 && n.seqCounter == 2 * k + 1 && n.corrCounter == 1 &&
    forall j: nat :: 1 <= j <= k ==> 2 * j in n.pending
  }

  lemma SenderCalls(n: Node, k: nat)
    requires SenderOk(n, k) && 2 * k < WORD - 4
    ensures SenderOk(Handed(Numbering(n), Publication(), 2), k + 1) && Numbering(n).seqCounter == 2 * k + 2
  {
  }

  lemma {:induction false} SenderIs(k: nat)
    requires 2 * k < WORD - 2
    ensures SenderOk(Sender(k), k)
  {
    if k > 0 {
      SenderIs(k - 1);
      SenderCalls(Sender(k - 1), k - 1);
      OneTarget(Numbering(Sender(k - 1)));
    }
  }

  predicate Quiet(run: seq<Step>) {
    forall i :: 0 <= i < |run| ==> run[i].at == 1 && !run[i].act.Cleanup? && run[i].now == 0
  }

  lemma {:induction false} FloodQuiet(k: nat)
    requires 2 * k < WORD - 2
    ensures |Flood(k)| == 3 * k && Quiet(Flood(k))
  {
    if k > 0 {
      FloodQuiet(k - 1);
      SenderIs(k - 1);
      OneTarget(Numbering(Sender(k - 1)));
    }
  }

  predicate Flooded(s: Sys, k: nat) {
    s.hosts.Keys == IDS && s.hosts[2] == Booted(2) && s.hosts[1] == Booted(1).(bus := Sender(k)) && AllOut(s.net, k)
  }

  predicate AllOut(net: set<Datagram>, k: nat) {
    forall j: nat :: 1 <= j <= k ==> OnTheWay(net, j)
  }

  lemma OneMoreOut(net: set<Datagram>, k: nat)
    requires AllOut(net, k) && 2 * k < WORD - 4
    ensures AllOut(net + Elements([Message(2 * k + 2)]), k + 1)
  {
    var more := net + Elements([Message(2 * k + 2)]);
    ElementsOfOne(Message(2 * k + 2));
    assert OnTheWay(more, k + 1);
    assert forall j: nat :: 1 <= j <= k ==> OnTheWay(net, j) && OnTheWay(more, j);
  }

  predicate OnTheWay(net: set<Datagram>, j: nat) {
    2 * j < WORD && Message(2 * j) in net
  }

  lemma FloodStep(s: Sys, r: Sys, k: nat)
    requires Flooded(s, k) && 2 * k < WORD - 4
    requires Reached(r, Publication(), s.hosts[1], s.net, s.hosts, PublishedTo(Numbering(Sender(k)), [2], Publication()))
    ensures Flooded(r, k + 1)
  {
    SenderIs(k);
    OneTarget(Numbering(Sender(k)));
    OneMoreOut(s.net, k);
  }

  lemma FloodedHome(s: Sys, k: nat)
    requires Flooded(s, k) && 2 * k < WORD - 4
    ensures AtHome(s, 1, 2) && s.hosts[1].bus == Sender(k)
  {
    SenderIs(k);
  }

  lemma FloodMore(run: seq<Step>, s: Sys, k: nat)
    requires Flooded(s, k) && 2 * k < WORD - 4 && Doing(IDS, run, s, Publication(), Numbering(Sender(k)), [2])
    ensures var after := run + PublishSteps(Numbering(Sender(k)), [2], Publication());
            Run(IDS, after) && Flooded(Final(IDS, after), k + 1)
  {
    FloodStep(s, Final(IDS, run + PublishSteps(Numbering(Sender(k)), [2], Publication())), k);
  }

  predicate Floods(k: nat) {
    Run(IDS, Flood(k)) && Flooded(Final(IDS, Flood(k)), k)
  }

  lemma NoFlood()
    ensures Floods(0)
  {
    assert Flooded(Initial(IDS), 0);
  }

  lemma FloodNext(k: nat)
    requires Floods(k) && 2 * k < WORD - 4
    ensures Floods(k + 1)
  {
    var s := Final(IDS, Flood(k));
    FloodedHome(s, k);
    PublishIsSteps(IDS, Flood(k), [2], Publication());
    FloodMore(Flood(k), s, k);
  }

  lemma {:induction false} FloodRuns(k: nat)
    requires 2 * k < WORD - 2
    ensures Floods(k)
  {
    if k > 0 {
      FloodRuns(k - 1);
      FloodNext(k - 1);
    } else {
      NoFlood();
    }
  }

  // ---------------------------------------------------------------- the overtaken message

  function Deliver(n: uint32): (t: Step) { Step(2, 0, Receive(Message(n), [])) }

  function Confirm(): (t: Step) { Step(1, 0, Receive(Datagram(2, 1, Pubrec(2)), [])) }

  /** n calls; then the last message arrives, then the first, and the sender gets the PUBREC of the first. */
  function Script(n: nat): (run: seq<Step>)
    requires Enough(n)
  {
    Flood(n) + [Deliver(2 * n)] + [Deliver(2)] + [Confirm()]
  }

  /** The sender has finished, and the receiver has got nothing yet. */
  predicate Out(s: Sys, n: nat) {
    s.hosts.Keys == IDS && s.hosts[2] == Booted(2) && s.hosts[1].bus.id == 1 && Fresh(s.hosts[1]) && 2 in s.hosts[1].bus.pending &&
    OnTheWay(s.net, n) && OnTheWay(s.net, 1)
  }

  lemma FloodOut(s: Sys, n: nat)
    requires Enough(n) && Flooded(s, n)
    ensures Out(s, n)
  {
    SenderIs(n);
    assert 2 * 1 in Sender(n).pending;
  }

  lemma DeliverLast(run: seq<Step>, n: nat)
    requires Enough(n) && Run(IDS, run) && Out(Final(IDS, run), n)
    ensures Run(IDS, run + [Deliver(2 * n)])
    ensures var s, r := Final(IDS, run), Final(IDS, run + [Deliver(2 * n)]);
            r.hosts.Keys == IDS && r.hosts[1] == s.hosts[1] && s.net <= r.net && Fresh(r.hosts[2]) && r.hosts[2].bus.id == 2 &&
            WindowOf(r.hosts[2].bus, 1) == D.Window(true, 2 * n, {2 * n})
  {
    Extend(IDS, run, Deliver(2 * n));
  }

  lemma DeliverFirst(run: seq<Step>)
    requires Run(IDS, run)
    requires var s := Final(IDS, run); s.hosts.Keys == IDS && Fresh(s.hosts[2]) && s.hosts[2].bus.id == 2 && Message(2) in s.net
    ensures Run(IDS, run + [Deliver(2)])
    ensures var s, r := Final(IDS, run), Final(IDS, run + [Deliver(2)]);
            r.hosts.Keys == IDS && r.hosts[1] == s.hosts[1] && Datagram(2, 1, Pubrec(2)) in r.net
  {
    Extend(IDS, run, Deliver(2));
    ElementsOfOne(Datagram(2, 1, Pubrec(2)));
  }

  lemma ThreeDeliveries(run: seq<Step>, n: nat)
    requires Enough(n) && Run(IDS, run) && Out(Final(IDS, run), n)
    ensures var r2 := run + [Deliver(2 * n)]; var r3 := r2 + [Deliver(2)];
            Run(IDS, r2) && Run(IDS, r3) && Run(IDS, r3 + [Confirm()]) && Final(IDS, r2).hosts.Keys == Final(IDS, r3).hosts.Keys == IDS &&
            WindowOf(Final(IDS, r2).hosts[2].bus, 1) == D.Window(true, 2 * n, {2 * n}) && 2 in Final(IDS, r3).hosts[1].bus.pending
  {
    DeliverLast(run, n);
    DeliverFirst(run + [Deliver(2 * n)]);
    Extend(IDS, run + [Deliver(2 * n)] + [Deliver(2)], Confirm());
  }

  lemma BeforeRest(a: seq<Step>, b: seq<Step>)
    requires Run(IDS, a) && Run(IDS, a + b) && b != []
    ensures Before(IDS, a + b, |a|) == Final(IDS, a)
  {
    assert (a + b)[..|a|] == a;
  }

  predicate ScriptOk(run: seq<Step>, n: nat) {
    Enough(n) && Run(IDS, run) && |run| == 3 * n + 3 &&
    WindowBefore(IDS, run, 3 * n + 1, 1) == D.Window(true, 2 * n, {2 * n}) && run[3 * n + 1] == Deliver(2) &&
    run[3 * n + 2] == Confirm() &&
    1 in Before(IDS, run, 3 * n + 2).hosts && 2 in Before(IDS, run, 3 * n + 2).hosts[1].bus.pending
  }

  lemma ScriptRuns(n: nat)
    requires Enough(n)
    ensures ScriptOk(Script(n), n)
  {
    FloodRuns(n);
    FloodQuiet(n);
    FloodOut(Final(IDS, Flood(n)), n);
    var r2 := Flood(n) + [Deliver(2 * n)];
    var r3 := r2 + [Deliver(2)];
    ThreeDeliveries(Flood(n), n);
    assert Script(n) == r3 + [Confirm()] && Script(n) == r2 + ([Deliver(2)] + [Confirm()]);
    BeforeRest(r2, [Deliver(2)] + [Confirm()]);
    BeforeRest(r3, [Confirm()]);
  }

  lemma ScriptParts(n: nat)
    requires Enough(n)
    ensures var run := Script(n);
            |run| == 3 * n + 3 && run[..3 * n] == Flood(n) && run[3 * n] == Deliver(2 * n) && run[3 * n + 1] == Deliver(2) &&
            run[3 * n + 2] == Confirm()
    ensures forall k :: 0 <= k < 3 * n ==> Script(n)[k].at == 1 && !Script(n)[k].act.Cleanup?
  {
    FloodQuiet(n);
    forall k | 0 <= k < 3 * n
      ensures Script(n)[k].at == 1 && !Script(n)[k].act.Cleanup?
    {
      assert Script(n)[k] == Flood(n)[k];
    }
  }

  lemma OnlyArrival(n: nat)
    requires Enough(n)
    ensures First(Script(n), 2, 1, 2) == 3 * n + 1
  {
    ScriptParts(n);
    assert Arrives(Script(n)[3 * n + 1], 2, 1, 2);
  }

  lemma NoCleanup(n: nat)
    requires Enough(n)
    ensures forall k :: 0 <= k < |Script(n)| ==> !Script(n)[k].act.Cleanup?
  {
    ScriptParts(n);
  }

  lemma NothingReclaimed(run: seq<Step>)
    requires Run(IDS, run) && forall k :: 0 <= k < |run| ==> !run[k].act.Cleanup?
    ensures forall k :: 0 <= k < |run| ==> !ReclaimsAt(IDS, run, k, 2, 1)
  {
  }

  lemma LastTooOld(n: nat)
    requires Enough(n)
    ensures D.TooOld(D.Window(true, 2 * n, {2 * n}), 2)
  {
  }

  /**
    The first publication, overtaken by one whose number is 1024 or more ahead: its PUBREC takes it off the
    sender's table, and no step of the run ever routes it.
  */
  lemma AcknowledgedNeverRouted(n: nat)
    requires Enough(n)
    ensures var run := Script(n);
            Run(IDS, run) && |run| > 0 && Timed(run) &&
            run[|run| - 1].act.Receive? && run[|run| - 1].act.d == Datagram(2, 1, Pubrec(2)) &&
            1 in Before(IDS, run, |run| - 1).hosts && 2 in Before(IDS, run, |run| - 1).hosts[1].bus.pending &&
            forall k :: 0 <= k < |run| ==> !Routes(IDS, run, k, 2, 1, 2)
  {
    ScriptRuns(n);
    OnlyArrival(n);
    NoCleanup(n);
    NothingReclaimed(Script(n));
    LastTooOld(n);
    TooOldNeverRouted(IDS, Script(n), 3 * n + 1, 2, 1, 2);
    ScriptTimed(n);
  }

  lemma ScriptTimed(n: nat)
    requires Enough(n)
    ensures Timed(Script(n))
  {
    ScriptParts(n);
    FloodQuiet(n);
    assert forall k :: 0 <= k < 3 * n ==> Script(n)[k] == Flood(n)[k];
  }
}
