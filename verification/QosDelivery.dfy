/** What the acknowledgement protocol of BusNet guarantees to publishers and subscribers. */
module QosDelivery {
  import opened Words
  import opened Packets
  import opened MessageBus
  import opened BusNet
  import Q = QosEngine
  import D = DedupWindow

  // ---------------------------------------------------------------- numbers name packets

  predicate Is(x: Datagram, p: uint16, n: uint32) {
    x.from == p && Numbered(x.packet) && x.packet.seqId == n
  }

  predicate Unique(net: set<Datagram>, p: uint16, n: uint32) {
    forall x, y :: x in net && y in net && Is(x, p, n) && Is(y, p, n) ==> x.packet == y.packet
  }

  predicate Used(s: Sys, p: uint16, n: uint32) {
    forall x :: x in s.net && Is(x, p, n) ==> p in s.hosts && n < s.hosts[p].bus.seqCounter
  }

  /** All datagrams of one sender with one number carry the same packet. */
  lemma {:induction false} NumberNamesPacket(ids: set<uint16>, run: seq<Step>, p: uint16, n: uint32)
    requires Run(ids, run)
    ensures Used(Final(ids, run), p, n) && Unique(Final(ids, run).net, p, n)
  {
    if run != [] {
      NumberNamesPacket(ids, Past(run), p, n);
      RunKeepsHosts(ids, Past(run));
      StepKeepsNumbers(Final(ids, Past(run)), Last(run), p, n);
    }
  }

  lemma StepKeepsNumbers(s: Sys, t: Step, p: uint16, n: uint32)
    requires HostsOk(s) && Enabled(s, t) && Used(s, p, n) && Unique(s.net, p, n)
    ensures Used(Apply(s, t), p, n) && Unique(Apply(s, t).net, p, n)
  {
    var h := s.hosts[t.at];
    CounterGrows(h, t.now, t.act);
    forall x | x in Apply(s, t).net && x !in s.net && Is(x, p, n)
      ensures p == t.at && n == h.bus.seqCounter && n < Apply(s, t).hosts[p].bus.seqCounter
      ensures forall y :: y in Sent(h, t.now, t.act) ==> y.packet == x.packet
    {
      SentHasCause(h, t.at, s.net, t.now, t.act, x);
      NewNumber(h, t.at, s.net, t.now, t.act, x);
    }
  }

  lemma {:induction false} NetGrows(ids: set<uint16>, run: seq<Step>, i: nat)
    requires Run(ids, run) && i <= |run|
    ensures Run(ids, run[..i]) && Final(ids, run[..i]).net <= Final(ids, run).net
    decreases |run|
  {
    Prefix(ids, run, i);
    if i < |run| {
      NetGrows(ids, Past(run), i);
      assert Past(run)[..i] == run[..i];
    } else {
      assert run[..i] == run;
    }
  }

  // ---------------------------------------------------------------- arrivals

  /** Step t puts packet number s of p before r's duplicate filter. */
  predicate Arrives(t: Step, r: uint16, p: uint16, s: uint32) {
    t.at == r && t.act.Receive? && Is(t.act.d, p, s) && t.act.d.packet.level == ExactlyOnce
  }

  /** The index of the first arrival, or the length of the run. */
  function First(run: seq<Step>, r: uint16, p: uint16, s: uint32): (i: nat)
    ensures i <= |run|
    ensures i < |run| ==> Arrives(run[i], r, p, s)
    ensures forall j :: 0 <= j < i ==> !Arrives(run[j], r, p, s)
    decreases |run|
  {
    if run == [] then 0
    else
      var f := First(Past(run), r, p, s);
      assert forall j :: 0 <= j < |run| - 1 ==> run[j] == Past(run)[j];
      if f < |run| - 1 || Arrives(Last(run), r, p, s) then f else |run|
  }

  /** The cleanup of step t reclaims the window that r keeps for p. */
  predicate Reclaims(s: Sys, t: Step, r: uint16, p: uint16) {
    t.at == r && t.act.Cleanup? && r in s.hosts && Q.Idle(s.hosts[r].bus.touched, p, t.now)
  }

  /** The numbers of p checked by r's filter since its window was last reclaimed. */
  function Calls(ids: set<uint16>, run: seq<Step>, r: uint16, p: uint16): (c: seq<uint32>)
    requires Run(ids, run)
    decreases |run|
  {
    if run == [] then []
    else
      var t := Last(run);
      if t.act.Receive? && Numbered(t.act.d.packet) && Arrives(t, r, p, t.act.d.packet.seqId) then
        Calls(ids, Past(run), r, p) + [t.act.d.packet.seqId]
      else if Reclaims(Final(ids, Past(run)), t, r, p) then []
      else Calls(ids, Past(run), r, p)
  }

  lemma {:induction false} CallsArrived(ids: set<uint16>, run: seq<Step>, r: uint16, p: uint16, s: uint32)
    requires Run(ids, run) && s in Calls(ids, run, r, p)
    ensures First(run, r, p, s) < |run|
    decreases |run|
  {
    if s in Calls(ids, Past(run), r, p) {
      CallsArrived(ids, Past(run), r, p, s);
    }
  }

  lemma WindowStep(h: Host, now: nat, act: Action, p: uint16)
    ensures WindowOf(After(h, now, act).bus, p) ==
      if act.Receive? && Numbered(act.d.packet) && act.d.packet.level == ExactlyOnce && act.d.from == p then
        D.Marked(WindowOf(h.bus, p), act.d.packet.seqId)
      else if act.Cleanup? && Q.Idle(h.bus.touched, p, now) then D.FRESH
      else WindowOf(h.bus, p)
  {
    if act.Receive? { ReceiveWindow(h.bus, act.d, act.response, now, p); }
  }

  lemma ReceiveWindow(n: Node, d: Datagram, response: Bytes, now: nat, p: uint16)
    ensures WindowOf(Received(n, d, response, now).node, p) ==
      if Numbered(d.packet) && d.packet.level == ExactlyOnce && d.from == p then D.Marked(WindowOf(n, p), d.packet.seqId)
      else WindowOf(n, p)
  {
  }

  lemma AfterOneMore(calls: seq<uint32>, s: uint32)
    ensures D.After(calls + [s]) == D.Marked(D.After(calls), s)
  {
    assert (calls + [s])[..|calls|] == calls;
  }

  /** r's window for p is what the filter makes of those calls. */
  lemma {:induction false} WindowIsCalls(ids: set<uint16>, run: seq<Step>, r: uint16, p: uint16)
    requires Run(ids, run) && r in ids
    ensures r in Final(ids, run).hosts
    ensures WindowOf(Final(ids, run).hosts[r].bus, p) == D.After(Calls(ids, run, r, p))
    decreases |run|
  {
    SameHosts(ids, run);
    if run != [] {
      SameHosts(ids, Past(run));
      WindowIsCalls(ids, Past(run), r, p);
      var s, t := Final(ids, Past(run)), Last(run);
      if t.at == r {
        WindowStep(s.hosts[r], t.now, t.act, p);
        if t.act.Receive? && Numbered(t.act.d.packet) {
          AfterOneMore(Calls(ids, Past(run), r, p), t.act.d.packet.seqId);
        }
      }
    }
  }

  // ---------------------------------------------------------------- at most once

  function Before(ids: set<uint16>, run: seq<Step>, i: nat): (s: Sys)
    requires Run(ids, run) && i < |run|
    ensures Run(ids, run[..i]) && s == Final(ids, run[..i]) && Enabled(s, run[i])
  {
    Prefix(ids, run, i);
    Final(ids, run[..i])
  }

  lemma OneStep(ids: set<uint16>, run: seq<Step>, i: nat)
    requires Run(ids, run) && i < |run|
    ensures Run(ids, run[..i + 1]) && Final(ids, run[..i + 1]) == Apply(Before(ids, run, i), run[i])
  {
    Prefix(ids, run, i + 1);
    assert Past(run[..i + 1]) == run[..i] && Last(run[..i + 1]) == run[i];
  }

  /** Step i hands the PUBLISH numbered s of p to r's router. */
  predicate Routes(ids: set<uint16>, run: seq<Step>, i: nat, r: uint16, p: uint16, s: uint32)
    requires Run(ids, run) && i < |run|
  {
    var t := run[i];
    t.at == r && t.act.Receive? && Is(t.act.d, p, s) && Routed(Before(ids, run, i).hosts[r].bus, t.act.d)
  }

  predicate ReclaimsAt(ids: set<uint16>, run: seq<Step>, k: nat, r: uint16, p: uint16)
    requires Run(ids, run) && k < |run|
  {
    Reclaims(Before(ids, run, k), run[k], r, p)
  }

  lemma DuplicateOfSeen(calls: seq<uint32>, s: uint32)
    requires s in calls
    ensures D.Duplicate(D.After(calls), s)
  {
    D.AfterRemembers(calls);
  }

  /** A number that arrived stays among the calls until the window is reclaimed. */
  lemma {:induction false} StaysSeen(ids: set<uint16>, run: seq<Step>, i: nat, j: nat, r: uint16, p: uint16, s: uint32)
    requires Run(ids, run) && i < j <= |run| && Arrives(run[i], r, p, s)
    requires forall k :: i < k < j ==> !ReclaimsAt(ids, run, k, r, p)
    ensures Run(ids, run[..j]) && s in Calls(ids, run[..j], r, p)
    decreases j
  {
    OneStep(ids, run, j - 1);
    var now := run[..j];
    assert Past(now) == run[..j - 1] && Last(now) == run[j - 1];
    if j - 1 > i {
      StaysSeen(ids, run, i, j - 1, r, p, s);
      assert !ReclaimsAt(ids, run, j - 1, r, p);
      CallsKept(ids, now, r, p, s);
    } else {
      CallAdded(ids, now, r, p, s);
    }
  }

  lemma CallsKept(ids: set<uint16>, run: seq<Step>, r: uint16, p: uint16, s: uint32)
    requires Run(ids, run) && run != [] && s in Calls(ids, Past(run), r, p)
    requires !Reclaims(Final(ids, Past(run)), Last(run), r, p)
    ensures s in Calls(ids, run, r, p)
  {
  }

  lemma CallAdded(ids: set<uint16>, run: seq<Step>, r: uint16, p: uint16, s: uint32)
    requires Run(ids, run) && run != [] && Arrives(Last(run), r, p, s)
    ensures s in Calls(ids, run, r, p)
  {
  }

  /** What r's filter says to step j. */
  lemma FilterIsCalls(ids: set<uint16>, run: seq<Step>, j: nat, r: uint16, p: uint16, s: uint32)
    requires Run(ids, run) && j < |run| && Arrives(run[j], r, p, s)
    ensures Run(ids, run[..j]) && r in Before(ids, run, j).hosts
    ensures Filtered(Before(ids, run, j).hosts[r].bus, p, run[j].act.d.packet) <==> D.Duplicate(D.After(Calls(ids, run[..j], r, p)), s)
  {
    Prefix(ids, run, j);
    SameHosts(ids, run[..j]);
    WindowIsCalls(ids, run[..j], r, p);
  }

  lemma SeenIsFiltered(ids: set<uint16>, run: seq<Step>, i: nat, j: nat, r: uint16, p: uint16, s: uint32)
    requires Run(ids, run) && i < j < |run| && Arrives(run[i], r, p, s) && Arrives(run[j], r, p, s)
    requires forall k :: i < k < j ==> !ReclaimsAt(ids, run, k, r, p)
    ensures !Routes(ids, run, j, r, p, s)
  {
    StaysSeen(ids, run, i, j, r, p, s);
    FilterIsCalls(ids, run, j, r, p, s);
    DuplicateOfSeen(Calls(ids, run[..j], r, p), s);
  }

  /** An ExactlyOnce publication is routed at most once, unless its window is reclaimed in between. */
  lemma AtMostOnce(ids: set<uint16>, run: seq<Step>, i: nat, j: nat, r: uint16, p: uint16, s: uint32)
    requires Run(ids, run) && i < j < |run|
    requires Routes(ids, run, i, r, p, s) && Routes(ids, run, j, r, p, s) && run[i].act.d.packet.level == ExactlyOnce
    ensures exists k :: i < k < j && ReclaimsAt(ids, run, k, r, p)
  {
    SamePacket(ids, run, i, j, r, p, s);
    if forall k :: i < k < j ==> !ReclaimsAt(ids, run, k, r, p) {
      SeenIsFiltered(ids, run, i, j, r, p, s);
    }
  }

  /** What is received under one number is one packet. */
  lemma SamePacket(ids: set<uint16>, run: seq<Step>, i: nat, j: nat, r: uint16, p: uint16, s: uint32)
    requires Run(ids, run) && i < |run| && j < |run|
    requires run[i].act.Receive? && Is(run[i].act.d, p, s) && run[j].act.Receive? && Is(run[j].act.d, p, s)
    ensures run[i].act.d.packet == run[j].act.d.packet
  {
    NumberNamesPacket(ids, run, p, s);
    NetGrows(ids, run, i);
    NetGrows(ids, run, j);
    assert Enabled(Before(ids, run, i), run[i]) && Enabled(Before(ids, run, j), run[j]);
  }

  // ---------------------------------------------------------------- acknowledged means arrived

  predicate PublishArrived(run: seq<Step>, r: uint16, p: uint16, s: uint32) {
    exists i :: 0 <= i < |run| && Arrives(run[i], r, p, s) && run[i].act.d.packet.Publish?
  }

  lemma PublishArrivedGrows(run: seq<Step>, r: uint16, p: uint16, s: uint32)
    requires run != [] && PublishArrived(Past(run), r, p, s)
    ensures PublishArrived(run, r, p, s)
  {
    var i :| 0 <= i < |run| - 1 && Arrives(Past(run)[i], r, p, s) && Past(run)[i].act.d.packet.Publish?;
    assert run[i] == Past(run)[i];
  }

  /** A PUBREC exists only for a PUBLISH that arrived. */
  lemma {:induction false} PubrecMeansArrived(ids: set<uint16>, run: seq<Step>, r: uint16, p: uint16, s: uint32)
    requires Run(ids, run) && Datagram(r, p, Pubrec(s)) in Final(ids, run).net
    ensures PublishArrived(run, r, p, s)
    decreases |run|
  {
    var x := Datagram(r, p, Pubrec(s));
    var before, t := Final(ids, Past(run)), Last(run);
    if x in before.net {
      PubrecMeansArrived(ids, Past(run), r, p, s);
      PublishArrivedGrows(run, r, p, s);
    } else {
      RunKeepsHosts(ids, Past(run));
      SentHasCause(before.hosts[t.at], t.at, before.net, t.now, t.act, x);
      assert Arrives(run[|run| - 1], r, p, s);
    }
  }

  /** PUBCOMP follows PUBREL follows PUBREC. */
  lemma {:induction false} HandshakeOrder(ids: set<uint16>, run: seq<Step>, r: uint16, p: uint16, s: uint32)
    requires Run(ids, run)
    ensures var net := Final(ids, run).net;
            (Datagram(r, p, Pubcomp(s)) in net ==> Datagram(p, r, Pubrel(s)) in net) &&
            (Datagram(p, r, Pubrel(s)) in net ==> Datagram(r, p, Pubrec(s)) in net)
    decreases |run|
  {
    if run != [] {
      HandshakeOrder(ids, Past(run), r, p, s);
      RunKeepsHosts(ids, Past(run));
      var before, t := Final(ids, Past(run)), Last(run);
      var sent := Sent(before.hosts[t.at], t.now, t.act);
      if Datagram(r, p, Pubcomp(s)) in sent {
        SentHasCause(before.hosts[t.at], t.at, before.net, t.now, t.act, Datagram(r, p, Pubcomp(s)));
      }
      if Datagram(p, r, Pubrel(s)) in sent {
        SentHasCause(before.hosts[t.at], t.at, before.net, t.now, t.act, Datagram(p, r, Pubrel(s)));
      }
    }
  }

  /** The window r kept for p when step i came. */
  function WindowBefore(ids: set<uint16>, run: seq<Step>, i: nat, p: uint16): (w: D.Window)
    requires Run(ids, run) && i < |run|
  {
    WindowOf(Before(ids, run, i).hosts[run[i].at].bus, p)
  }

  /** The first arrival of a publication is routed unless it is too far behind; the filter has no other reason. */
  lemma FirstArrivalFate(ids: set<uint16>, run: seq<Step>, r: uint16, p: uint16, s: uint32)
    requires Run(ids, run)
    ensures var j := First(run, r, p, s);
            j < |run| && run[j].act.d.packet.Publish? ==>
              (Routes(ids, run, j, r, p, s) <==> !D.TooOld(WindowBefore(ids, run, j, p), s))
  {
    var j := First(run, r, p, s);
    if j < |run| && run[j].act.d.packet.Publish? {
      Prefix(ids, run, j);
      SameHosts(ids, run[..j]);
      WindowIsCalls(ids, run[..j], r, p);
      var calls := Calls(ids, run[..j], r, p);
      if s in calls { CallsArrived(ids, run[..j], r, p, s); }
      D.FirstOccurrence(calls, s);
    }
  }

  lemma ArrivedFate(ids: set<uint16>, run: seq<Step>, i: nat, r: uint16, p: uint16, s: uint32)
    requires Run(ids, run) && i <= |run| && PublishArrived(run[..i], r, p, s)
    ensures var j := First(run, r, p, s);
            j < i && run[j].act.d.packet.Publish? &&
            (Routes(ids, run, j, r, p, s) <==> !D.TooOld(WindowBefore(ids, run, j, p), s))
  {
    var k :| 0 <= k < i && Arrives(run[..i][k], r, p, s) && run[..i][k].act.d.packet.Publish?;
    assert run[..i][k] == run[k];
    SamePacket(ids, run, First(run, r, p, s), k, r, p, s);
    FirstArrivalFate(ids, run, r, p, s);
  }

  /**
    When p receives a PUBREC from r, the publication has arrived at r, and r routed it on its first arrival
    exactly if it was then less than 1024 behind the highest number r had seen of p.
  */
  lemma AcknowledgedFate(ids: set<uint16>, run: seq<Step>, i: nat, r: uint16, p: uint16, s: uint32)
    requires Run(ids, run) && i < |run| && run[i].act.Receive? && run[i].act.d == Datagram(r, p, Pubrec(s))
    ensures var j := First(run, r, p, s);
            j < i && run[j].act.d.packet.Publish? &&
            (Routes(ids, run, j, r, p, s) <==> !D.TooOld(WindowBefore(ids, run, j, p), s))
  {
    assert Enabled(Before(ids, run, i), run[i]);
    PubrecMeansArrived(ids, run[..i], r, p, s);
    ArrivedFate(ids, run, i, r, p, s);
  }

  /** The same when the handshake is complete. */
  lemma CompletedFate(ids: set<uint16>, run: seq<Step>, i: nat, r: uint16, p: uint16, s: uint32)
    requires Run(ids, run) && i < |run| && run[i].act.Receive? && run[i].act.d == Datagram(r, p, Pubcomp(s))
    ensures var j := First(run, r, p, s);
            j < i && run[j].act.d.packet.Publish? &&
            (Routes(ids, run, j, r, p, s) <==> !D.TooOld(WindowBefore(ids, run, j, p), s))
  {
    assert Enabled(Before(ids, run, i), run[i]);
    HandshakeOrder(ids, run[..i], r, p, s);
    PubrecMeansArrived(ids, run[..i], r, p, s);
    ArrivedFate(ids, run, i, r, p, s);
  }

  /** While no window is reclaimed, a publication is routed at all exactly if its first arrival was not too far behind. */
  lemma RoutedIff(ids: set<uint16>, run: seq<Step>, r: uint16, p: uint16, s: uint32)
    requires Run(ids, run) && forall k :: 0 <= k < |run| ==> !ReclaimsAt(ids, run, k, r, p)
    requires First(run, r, p, s) < |run|
    ensures var j := First(run, r, p, s);
            (exists k :: 0 <= k < |run| && Routes(ids, run, k, r, p, s)) <==>
              (run[j].act.d.packet.Publish? && !D.TooOld(WindowBefore(ids, run, j, p), s))
  {
    var j := First(run, r, p, s);
    FirstArrivalFate(ids, run, r, p, s);
    forall k | 0 <= k < |run| && Routes(ids, run, k, r, p, s)
      ensures k == j && run[j].act.d.packet.Publish?
    {
      SamePacket(ids, run, j, k, r, p, s);
      if k > j { SeenIsFiltered(ids, run, j, k, r, p, s); }
    }
  }

  /** In particular one whose first arrival was too far behind is never routed. */
  lemma TooOldNeverRouted(ids: set<uint16>, run: seq<Step>, j: nat, r: uint16, p: uint16, s: uint32)
    requires Run(ids, run) && forall k :: 0 <= k < |run| ==> !ReclaimsAt(ids, run, k, r, p)
    requires First(run, r, p, s) == j < |run| && D.TooOld(WindowBefore(ids, run, j, p), s)
    ensures forall k :: 0 <= k < |run| ==> !Routes(ids, run, k, r, p, s)
  {
    RoutedIff(ids, run, r, p, s);
  }

  // ---------------------------------------------------------------- at least once

  /** Step i at r takes in the packet numbered s of p, routing it if it is a PUBLISH. */
  predicate Takes(ids: set<uint16>, run: seq<Step>, i: nat, r: uint16, p: uint16, s: uint32)
    requires Run(ids, run) && i < |run|
  {
    run[i].at == r && run[i].act.Receive? && Is(run[i].act.d, p, s) &&
    (run[i].act.d.packet.Publish? ==> Routes(ids, run, i, r, p, s))
  }

  predicate Taken(ids: set<uint16>, run: seq<Step>, r: uint16, p: uint16, s: uint32)
    requires Run(ids, run)
  {
    exists i: nat :: i < |run| && Takes(ids, run, i, r, p, s)
  }

  lemma TakenGrows(ids: set<uint16>, run: seq<Step>, i: nat, r: uint16, p: uint16, s: uint32)
    requires Run(ids, run) && i <= |run| && Run(ids, run[..i]) && Taken(ids, run[..i], r, p, s)
    ensures exists j: nat :: j < i && Takes(ids, run, j, r, p, s)
  {
    var j: nat :| j < i && Takes(ids, run[..i], j, r, p, s);
    assert run[..i][..j] == run[..j] && run[..i][j] == run[j];
    assert Takes(ids, run, j, r, p, s);
  }

  /** An ACK exists only for a packet that was taken in. */
  lemma {:induction false} AckMeansTaken(ids: set<uint16>, run: seq<Step>, r: uint16, p: uint16, s: uint32)
    requires Run(ids, run) && Datagram(r, p, Ack(s)) in Final(ids, run).net
    ensures Taken(ids, run, r, p, s)
    decreases |run|
  {
    var x := Datagram(r, p, Ack(s));
    var before, t := Final(ids, Past(run)), Last(run);
    if x in before.net {
      AckMeansTaken(ids, Past(run), r, p, s);
      TakenGrows(ids, run, |run| - 1, r, p, s);
    } else {
      RunKeepsHosts(ids, Past(run));
      SentHasCause(before.hosts[t.at], t.at, before.net, t.now, t.act, x);
      assert Takes(ids, run, |run| - 1, r, p, s);
    }
  }

  /** A Reliable publication that leaves the table by an ACK has been routed by whoever acknowledged it. */
  lemma AckedMeansRouted(ids: set<uint16>, run: seq<Step>, i: nat, r: uint16, p: uint16, s: uint32)
    requires Run(ids, run) && i < |run| && run[i].act.Receive? && run[i].act.d == Datagram(r, p, Ack(s)) && p in ids
    requires p in Before(ids, run, i).hosts && s in Before(ids, run, i).hosts[p].bus.pending
    requires Before(ids, run, i).hosts[p].bus.pending[s].data.packet.Publish?
    ensures exists j: nat :: j < i && Routes(ids, run, j, r, p, s) &&
              run[j].act.d.packet == Before(ids, run, i).hosts[p].bus.pending[s].data.packet
  {
    var before := Before(ids, run, i);
    AckMeansTaken(ids, run[..i], r, p, s);
    TakenGrows(ids, run, i, r, p, s);
    var j: nat :| j < i && Takes(ids, run, j, r, p, s);
    TakenIsPending(ids, run, i, j, r, p, s);
  }

  lemma TakenIsPending(ids: set<uint16>, run: seq<Step>, i: nat, j: nat, r: uint16, p: uint16, s: uint32)
    requires Run(ids, run) && j < i < |run| && run[j].act.Receive? && Is(run[j].act.d, p, s)
    requires p in Before(ids, run, i).hosts && s in Before(ids, run, i).hosts[p].bus.pending
    ensures run[j].act.d.packet == Before(ids, run, i).hosts[p].bus.pending[s].data.packet
  {
    var before := Before(ids, run, i);
    RunKeepsHosts(ids, run[..i]);
    assert HostOk(before.hosts[p], p, before.net);
    NumberNamesPacket(ids, run[..i], p, s);
    ReceivedWasSent(ids, run, i, j);
  }

  lemma ReceivedWasSent(ids: set<uint16>, run: seq<Step>, i: nat, j: nat)
    requires Run(ids, run) && j < i < |run| && run[j].act.Receive?
    ensures run[j].act.d in Before(ids, run, i).net
  {
    var before := Before(ids, run, i);
    NetGrows(ids, run[..i], j);
    assert run[..i][..j] == run[..j];
    assert Enabled(Before(ids, run, j), run[j]);
  }
}
