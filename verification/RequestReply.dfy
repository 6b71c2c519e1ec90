/** What request/reply over BusNet guarantees to requesters and to service handlers. */
module RequestReply {
  import opened Words
  import opened Packets
  import opened MessageBus
  import opened BusNet
  import opened QosDelivery
  import Q = QosEngine

  // ---------------------------------------------------------------- every promise is in exactly one place

  /** What step `act` of a host does to the promise of request c. */
  function Resolves(h: Host, now: nat, act: Action, c: uint32): (r: seq<Outcome>) {
    match act
    case Receive(d, response) =>
      if d.packet.Reply? && Received(h.bus, d, response, now).resolved == Some(c) then [Value(d.packet.payload)] else []
    case Ask(k, _, _, _, _) => if k == c && c in h.bus.requests then [Broken] else []
    case AskLocal(k, _, _, response) => if k == c then [Value(response)] else []
    case Fail(k) => if k == c && c in h.failing then [h.failing[c]] else []
    case Cancel(k) => if k == c && c in h.bus.requests then [Broken] else []
    case Stop => if h.bus.running && c in h.bus.requests then [Stopped] else []
    case _ => []
  }

  /** The outcomes the promise of n's request c has been given. */
  function Outcomes(ids: set<uint16>, run: seq<Step>, n: uint16, c: uint32): (r: seq<Outcome>)
    requires Run(ids, run)
    decreases |run|
  {
    if run == [] then []
    else
      var before, t := Outcomes(ids, Past(run), n, c), Last(run);
      if t.at == n then before + Resolves(Final(ids, Past(run)).hosts[n], t.now, t.act, c) else before
  }

  /** A correlation id that was drawn and used. */
  predicate Issued(h: Host, c: uint32) {
    1 <= c < h.bus.corrCounter && c !in h.drawn
  }

  /** How many holders the promise has: the table, or a thread about to fail it. */
  function Held(h: Host, c: uint32): (k: nat) {
    (if c in h.bus.requests then 1 else 0) + (if c in h.failing then 1 else 0)
  }

  predicate DrawnOk(h: Host) {
    h.bus.corrCounter >= 1 && forall k :: k in h.drawn ==> 1 <= k < h.bus.corrCounter
  }

  lemma DrawnStep(h: Host, now: nat, act: Action)
    requires DrawnOk(h) && Fresh(h)
    ensures DrawnOk(After(h, now, act))
  {
    CounterGrows(h, now, act);
  }

  predicate Ledger(h: Host, outcomes: nat, c: uint32) {
    DrawnOk(h) && outcomes + Held(h, c) == if Issued(h, c) then 1 else 0
  }

  lemma ReceiveRequests(n: Node, d: Datagram, response: Bytes, now: nat, c: uint32)
    ensures var e := Received(n, d, response, now);
            if d.packet.Reply? && e.resolved == Some(c) then c in n.requests && c !in e.node.requests
            else (c in e.node.requests <==> c in n.requests)
    ensures var m := Received(n, d, response, now).node.requests; forall k :: k in m ==> k in n.requests && m[k] == n.requests[k]
  {
  }

  lemma LedgerStep(h: Host, net: set<Datagram>, now: nat, act: Action, outcomes: nat, c: uint32)
    requires Ledger(h, outcomes, c) && Fresh(h) && Can(h, net, act)
    ensures Ledger(After(h, now, act), outcomes + |Resolves(h, now, act, c)|, c)
  {
    CounterGrows(h, now, act);
    DrawnStep(h, now, act);
    if act.Receive? { LedgerReceive(h, now, act.d, act.response, outcomes, c); }
    if act.Extract? { LedgerExtract(h, now, outcomes, c); }
  }

  lemma LedgerExtract(h: Host, now: nat, outcomes: nat, c: uint32)
    requires Ledger(h, outcomes, c)
    ensures Ledger(Extracted(h, now), outcomes, c)
  {
  }

  lemma LedgerReceive(h: Host, now: nat, d: Datagram, response: Bytes, outcomes: nat, c: uint32)
    requires Ledger(h, outcomes, c) && Fresh(h)
    ensures Ledger(After(h, now, Receive(d, response)), outcomes + |Resolves(h, now, Receive(d, response), c)|, c)
  {
    ReceiveRequests(h.bus, d, response, now, c);
  }

  /**
    Conservation of promises: an issued one is in the table, or in the hands of a thread about to fail it,
    or has been given exactly one outcome; one not issued has none.
  */
  lemma {:induction false} PromiseLedger(ids: set<uint16>, run: seq<Step>, n: uint16, c: uint32)
    requires Run(ids, run) && n in ids
    ensures n in Final(ids, run).hosts && Ledger(Final(ids, run).hosts[n], |Outcomes(ids, run, n, c)|, c)
    decreases |run|
  {
    SameHosts(ids, run);
    if run != [] {
      PromiseLedger(ids, Past(run), n, c);
      var s, t := Final(ids, Past(run)), Last(run);
      if t.at == n {
        LedgerStep(s.hosts[n], s.net, t.now, t.act, |Outcomes(ids, Past(run), n, c)|, c);
      }
    }
  }

  /** A promise is resolved at most once, and then nobody holds it any more. */
  lemma ResolvedAtMostOnce(ids: set<uint16>, run: seq<Step>, n: uint16, c: uint32)
    requires Run(ids, run) && n in ids
    ensures |Outcomes(ids, run, n, c)| <= 1
    ensures n in Final(ids, run).hosts
    ensures var h := Final(ids, run).hosts[n];
            |Outcomes(ids, run, n, c)| == 1 ==> c !in h.bus.requests && c !in h.failing
  {
    PromiseLedger(ids, run, n, c);
  }

  // ---------------------------------------------------------------- what was asked

  /** What n asked under correlation id c. */
  function AskOf(run: seq<Step>, n: uint16, c: uint32): (ask: Option<Job>)
    ensures ask.Some? ==> ask.value.corrId == c
    decreases |run|
  {
    if run == [] then None
    else
      var t := Last(run);
      if t.at == n && t.act.Ask? && t.act.corrId == c then Some(AskedIn(t.act)) else AskOf(Past(run), n, c)
  }

  function AskedIn(act: Action): (j: Job)
    requires act.Ask?
  {
    Job(act.corrId, act.service, act.payload, act.qos)
  }

  function JobOf(c: uint32, w: Waiting): (j: Job) {
    Job(c, w.service, w.payload, w.qos)
  }

  predicate JobsAsk(jobs: multiset<Job>, c: uint32, ask: Option<Job>) {
    forall j :: j in jobs && j.corrId == c ==> ask == Some(j)
  }

  predicate HostAsks(h: Host, c: uint32, ask: Option<Job>) {
    JobsAsk(h.jobs, c, ask) &&
    (c in h.bus.requests ==> ask == Some(JobOf(c, h.bus.requests[c]))) &&
    (c in h.drawn || c >= h.bus.corrCounter ==> ask == None) &&
    (forall k :: k in h.drawn ==> k < h.bus.corrCounter)
  }

  /** Packet p carries what was asked. */
  predicate Carries(p: Packet, ask: Option<Job>)
    requires p.Request?
  {
    ask.Some? && ServiceName(p.topic) == ask.value.service && p.payload == ask.value.payload && p.level == ask.value.qos.level
  }

  predicate NetAsks(net: set<Datagram>, n: uint16, c: uint32, ask: Option<Job>) {
    forall x :: x in net && x.from == n && x.packet.Request? && x.packet.corrId == c ==> Carries(x.packet, ask)
  }

  function AskAfter(act: Action, c: uint32, ask: Option<Job>): (r: Option<Job>) {
    if act.Ask? && act.corrId == c then Some(AskedIn(act)) else ask
  }

  lemma HostAsksStep(h: Host, net: set<Datagram>, now: nat, act: Action, c: uint32, ask: Option<Job>)
    requires HostAsks(h, c, ask) && Fresh(h) && Can(h, net, act)
    ensures HostAsks(After(h, now, act), c, AskAfter(act, c, ask))
    ensures AskAfter(act, c, ask) == ask || ask == None
  {
    CounterGrows(h, now, act);
    JobsAskStep(h, now, act, c, ask);
    RequestsStep(h, now, act, c, ask);
  }

  lemma RequestsStep(h: Host, now: nat, act: Action, c: uint32, ask: Option<Job>)
    requires c in h.bus.requests ==> ask == Some(JobOf(c, h.bus.requests[c]))
    ensures var m := After(h, now, act).bus.requests; c in m ==> AskAfter(act, c, ask) == Some(JobOf(c, m[c]))
  {
    if act.Receive? { ReceiveRequests(h.bus, act.d, act.response, now, c); }
  }

  lemma JobsAskStep(h: Host, now: nat, act: Action, c: uint32, ask: Option<Job>)
    requires JobsAsk(h.jobs, c, ask) && (c in h.bus.requests ==> ask == Some(JobOf(c, h.bus.requests[c])))
    requires act.Ask? && act.corrId == c ==> ask == None
    ensures JobsAsk(After(h, now, act).jobs, c, AskAfter(act, c, ask))
  {
  }

  lemma NetAsksStep(h: Host, id: uint16, net: set<Datagram>, now: nat, act: Action, n: uint16, c: uint32, ask: Option<Job>)
    requires HostOk(h, id, net) && Can(h, net, act) && NetAsks(net, n, c, ask)
    requires id == n ==> HostAsks(h, c, ask)
    ensures NetAsks(net + Sent(h, now, act), n, c, ask)
  {
    forall x | x in Sent(h, now, act) && x !in net && x.from == n && x.packet.Request? && x.packet.corrId == c
      ensures Carries(x.packet, ask)
    {
      SentHasCause(h, id, net, now, act, x);
      ServiceNameOf(act.job.service);
    }
  }

  /** Every REQUEST on the network, every copy to send and every table entry is what was asked, and nothing is asked twice. */
  lemma {:induction false} RequestsAreAsked(ids: set<uint16>, run: seq<Step>, n: uint16, c: uint32)
    requires Run(ids, run) && n in ids
    ensures n in Final(ids, run).hosts
    ensures HostAsks(Final(ids, run).hosts[n], c, AskOf(run, n, c)) && NetAsks(Final(ids, run).net, n, c, AskOf(run, n, c))
    decreases |run|
  {
    SameHosts(ids, run);
    if run != [] {
      RequestsAreAsked(ids, Past(run), n, c);
      RunKeepsHosts(ids, Past(run));
      var s, t, ask := Final(ids, Past(run)), Last(run), AskOf(Past(run), n, c);
      NetAsksStep(s.hosts[t.at], t.at, s.net, t.now, t.act, n, c, ask);
      if t.at == n { HostAsksStep(s.hosts[n], s.net, t.now, t.act, c, ask); }
    }
  }

  // ---------------------------------------------------------------- replies come from handlers

  /** Step i runs r's handler for n's request c. */
  predicate HandlerRuns(ids: set<uint16>, run: seq<Step>, i: nat, r: uint16, n: uint16, c: uint32)
    requires Run(ids, run) && i < |run|
  {
    var t := run[i];
    t.at == r && t.act.Receive? && t.act.d.from == n && t.act.d.packet.Request? && t.act.d.packet.corrId == c &&
    Received(Before(ids, run, i).hosts[r].bus, t.act.d, t.act.response, t.now).ran
  }

  /** Step i runs r's handler on what n asked under c, and it answers v. */
  predicate AnswersAt(ids: set<uint16>, run: seq<Step>, i: nat, r: uint16, n: uint16, c: uint32, v: Bytes)
    requires Run(ids, run) && i < |run|
  {
    HandlerRuns(ids, run, i, r, n, c) && run[i].act.response == v &&
    Carries(run[i].act.d.packet, AskOf(run[..i], n, c))
  }

  predicate Answered(ids: set<uint16>, run: seq<Step>, r: uint16, n: uint16, c: uint32, v: Bytes)
    requires Run(ids, run)
  {
    exists i: nat :: i < |run| && AnswersAt(ids, run, i, r, n, c, v)
  }

  lemma AnsweredBefore(ids: set<uint16>, run: seq<Step>, i: nat, r: uint16, n: uint16, c: uint32, v: Bytes)
    requires Run(ids, run) && run != [] && i < |run| - 1 && AnswersAt(ids, Past(run), i, r, n, c, v)
    ensures AnswersAt(ids, run, i, r, n, c, v)
  {
    assert Past(run)[..i] == run[..i] && Past(run)[i] == run[i];
  }

  lemma AnsweredGrows(ids: set<uint16>, run: seq<Step>, r: uint16, n: uint16, c: uint32, v: Bytes)
    requires Run(ids, run) && run != [] && Answered(ids, Past(run), r, n, c, v)
    ensures Answered(ids, run, r, n, c, v)
  {
    var i: nat :| i < |Past(run)| && AnswersAt(ids, Past(run), i, r, n, c, v);
    AnsweredBefore(ids, run, i, r, n, c, v);
  }

  /** Replies from r to n under c that say v: on the network, or remembered by r. */
  predicate Says(s: Sys, r: uint16, n: uint16, c: uint32, v: Bytes) {
    || (exists x :: x in s.net && ReplyOf(x, r, n, c, v))
    || (r in s.hosts && Remembers(s.hosts[r].bus, n, c, v))
  }

  predicate ReplyOf(x: Datagram, r: uint16, n: uint16, c: uint32, v: Bytes) {
    x.from == r && x.to == n && x.packet.Reply? && x.packet.corrId == c && x.packet.payload == v
  }

  predicate Remembers(b: Node, n: uint16, c: uint32, v: Bytes) {
    Key(n, c) in b.cache && b.cache[Key(n, c)].response == v
  }

  /** The handler runs in this step and answers v. */
  predicate AnswersNow(h: Host, now: nat, act: Action, n: uint16, c: uint32, v: Bytes) {
    act.Receive? && act.d.from == n && act.d.packet.Request? && act.d.packet.corrId == c && act.response == v &&
    Received(h.bus, act.d, act.response, now).ran
  }

  lemma ReceiveRemembers(b: Node, d: Datagram, response: Bytes, now: nat, n: uint16, c: uint32, v: Bytes)
    requires Remembers(Received(b, d, response, now).node, n, c, v) && !Remembers(b, n, c, v)
    ensures d.packet.Request? && d.from == n && d.packet.corrId == c && response == v && Received(b, d, response, now).ran
  {
  }

  lemma HostRemembers(h: Host, now: nat, act: Action, n: uint16, c: uint32, v: Bytes)
    requires Remembers(After(h, now, act).bus, n, c, v) && !Remembers(h.bus, n, c, v)
    ensures AnswersNow(h, now, act, n, c, v)
  {
    if act.Receive? { ReceiveRemembers(h.bus, act.d, act.response, now, n, c, v); }
  }

  lemma StepRemembers(s: Sys, t: Step, r: uint16, n: uint16, c: uint32, v: Bytes)
    requires Enabled(s, t) && r in s.hosts && Remembers(Apply(s, t).hosts[r].bus, n, c, v) && !Remembers(s.hosts[r].bus, n, c, v)
    ensures t.at == r && AnswersNow(s.hosts[r], t.now, t.act, n, c, v)
  {
    if t.at == r { HostRemembers(s.hosts[r], t.now, t.act, n, c, v); }
  }

  lemma StepReplies(s: Sys, t: Step, x: Datagram, r: uint16, n: uint16, c: uint32, v: Bytes)
    requires HostsOk(s) && Enabled(s, t) && x in Sent(s.hosts[t.at], t.now, t.act) && x !in s.net && ReplyOf(x, r, n, c, v)
    ensures t.at == r && (AnswersNow(s.hosts[r], t.now, t.act, n, c, v) || Remembers(s.hosts[r].bus, n, c, v))
  {
    SentHasCause(s.hosts[t.at], t.at, s.net, t.now, t.act, x);
  }

  lemma StepSays(s: Sys, t: Step, r: uint16, n: uint16, c: uint32, v: Bytes)
    requires HostsOk(s) && Enabled(s, t) && Says(Apply(s, t), r, n, c, v) && !Says(s, r, n, c, v)
    ensures t.at == r && AnswersNow(s.hosts[r], t.now, t.act, n, c, v)
  {
    if x :| x in Apply(s, t).net && ReplyOf(x, r, n, c, v) {
      StepReplies(s, t, x, r, n, c, v);
    } else {
      StepRemembers(s, t, r, n, c, v);
    }
  }

  /** Whatever r replies, r's handler has answered to what n asked. */
  lemma {:induction false} RepliesAreAnswers(ids: set<uint16>, run: seq<Step>, r: uint16, n: uint16, c: uint32, v: Bytes)
    requires Run(ids, run) && n in ids && Says(Final(ids, run), r, n, c, v)
    ensures Answered(ids, run, r, n, c, v)
    decreases |run|
  {
    if run == [] {
      assert false;
    } else {
      var s, t := Final(ids, Past(run)), Last(run);
      if Says(s, r, n, c, v) {
        RepliesAreAnswers(ids, Past(run), r, n, c, v);
        AnsweredGrows(ids, run, r, n, c, v);
      } else {
        RunKeepsHosts(ids, Past(run));
        StepSays(s, t, r, n, c, v);
        RequestsAreAsked(ids, Past(run), n, c);
        assert AnswersAt(ids, run, |run| - 1, r, n, c, v);
      }
    }
  }

  /** n itself had a handler and answered v on the spot. */
  predicate AnsweredLocally(run: seq<Step>, n: uint16, c: uint32, v: Bytes) {
    exists i :: 0 <= i < |run| && LocalAnswer(run[i], n, c, v)
  }

  predicate LocalAnswer(t: Step, n: uint16, c: uint32, v: Bytes) {
    t.at == n && t.act.AskLocal? && t.act.corrId == c && t.act.response == v
  }

  /** Any value a promise gets is a provider's handler result for exactly that request. */
  lemma {:induction false} ValuesAreAnswers(ids: set<uint16>, run: seq<Step>, n: uint16, c: uint32, v: Bytes)
    requires Run(ids, run) && n in ids && Value(v) in Outcomes(ids, run, n, c)
    ensures AnsweredLocally(run, n, c, v) || exists r :: Answered(ids, run, r, n, c, v)
    decreases |run|
  {
    if Value(v) in Outcomes(ids, Past(run), n, c) {
      ValuesAreAnswers(ids, Past(run), n, c, v);
      if AnsweredLocally(Past(run), n, c, v) {
        var i :| 0 <= i < |run| - 1 && LocalAnswer(Past(run)[i], n, c, v);
        assert LocalAnswer(run[i], n, c, v);
      } else {
        var r :| Answered(ids, Past(run), r, n, c, v);
        AnsweredGrows(ids, run, r, n, c, v);
      }
    } else {
      var s, t := Final(ids, Past(run)), Last(run);
      FailuresHaveNoValue(ids, Past(run), n, c);
      if t.act.Receive? {
        RunKeepsHosts(ids, Past(run));
        assert ReplyOf(t.act.d, t.act.d.from, n, c, v);
        RepliesAreAnswers(ids, Past(run), t.act.d.from, n, c, v);
        AnsweredGrows(ids, run, t.act.d.from, n, c, v);
      } else {
        assert LocalAnswer(run[|run| - 1], n, c, v);
      }
    }
  }

  predicate FailsEmpty(h: Host, c: uint32) {
    c in h.failing ==> !h.failing[c].Value?
  }

  lemma FailingStep(h: Host, now: nat, act: Action, c: uint32)
    requires FailsEmpty(h, c)
    ensures FailsEmpty(After(h, now, act), c)
  {
  }

  lemma {:induction false} FailuresHaveNoValue(ids: set<uint16>, run: seq<Step>, n: uint16, c: uint32)
    requires Run(ids, run) && n in ids
    ensures n in Final(ids, run).hosts && FailsEmpty(Final(ids, run).hosts[n], c)
    decreases |run|
  {
    SameHosts(ids, run);
    if run != [] {
      FailuresHaveNoValue(ids, Past(run), n, c);
      var s, t := Final(ids, Past(run)), Last(run);
      if t.at == n { FailingStep(s.hosts[n], t.now, t.act, c); }
    }
  }

  // ---------------------------------------------------------------- handlers run once

  lemma CacheStep(h: Host, now: nat, act: Action, k: Key)
    requires k in h.bus.cache && !(act.ExpireCache? && Stale(h.bus.cache[k], now))
    ensures k in After(h, now, act).bus.cache && After(h, now, act).bus.cache[k] == h.bus.cache[k]
  {
    if act.Receive? { ReceiveCache(h.bus, act.d, act.response, now, k); }
  }

  lemma ReceiveCache(n: Node, d: Datagram, response: Bytes, now: nat, k: Key)
    requires k in n.cache
    ensures var e := Received(n, d, response, now); k in e.node.cache && e.node.cache[k] == n.cache[k]
  {
  }

  /** Step k empties r's cache of replies, at least 30 seconds after step i. */
  predicate Forgets(run: seq<Step>, i: nat, k: nat, r: uint16)
    requires i < k < |run|
  {
    run[k].at == r && run[k].act.ExpireCache? && run[k].now - run[i].now >= REPLY_TTL_NS
  }

  /** r remembers what it answered to n's request c at time `at`. */
  predicate CachedSince(s: Sys, r: uint16, k: Key, at: nat) {
    r in s.hosts && k in s.hosts[r].bus.cache && s.hosts[r].bus.cache[k].cachedAt == at
  }

  lemma StepKeepsCached(s: Sys, t: Step, r: uint16, k: Key, at: nat)
    requires Enabled(s, t) && CachedSince(s, r, k, at) && !(t.at == r && t.act.ExpireCache? && t.now - at >= REPLY_TTL_NS)
    ensures CachedSince(Apply(s, t), r, k, at)
  {
    if t.at == r { CacheStep(s.hosts[r], t.now, t.act, k); }
  }

  lemma StepCaches(s: Sys, t: Step)
    requires Enabled(s, t) && t.act.Receive? && t.act.d.packet.Request?
    requires Received(s.hosts[t.at].bus, t.act.d, t.act.response, t.now).ran
    ensures CachedSince(Apply(s, t), t.at, Key(t.act.d.from, t.act.d.packet.corrId), t.now)
  {
  }

  lemma RunCaches(ids: set<uint16>, run: seq<Step>, i: nat, r: uint16, n: uint16, c: uint32)
    requires Run(ids, run) && i < |run| && HandlerRuns(ids, run, i, r, n, c)
    ensures Run(ids, run[..i + 1]) && CachedSince(Final(ids, run[..i + 1]), r, Key(n, c), run[i].now)
  {
    OneStep(ids, run, i);
    StepCaches(Before(ids, run, i), run[i]);
  }

  /** Step t keeps what is remembered since `at`. */
  predicate Keeps(t: Step, r: uint16, at: nat) {
    !(t.at == r && t.act.ExpireCache? && t.now - at >= REPLY_TTL_NS)
  }

  lemma {:induction false} StaysCached(ids: set<uint16>, run: seq<Step>, from: nat, r: uint16, k: Key, at: nat)
    requires Run(ids, run) && from <= |run| && Run(ids, run[..from]) && CachedSince(Final(ids, run[..from]), r, k, at)
    requires forall m :: from <= m < |run| ==> Keeps(run[m], r, at)
    ensures CachedSince(Final(ids, run), r, k, at)
    decreases |run|
  {
    if from < |run| {
      assert Past(run)[..from] == run[..from];
      StaysCached(ids, Past(run), from, r, k, at);
      StepKeepsCached(Final(ids, Past(run)), Last(run), r, k, at);
    } else {
      assert run[..from] == run;
    }
  }

  lemma CachedNotRun(ids: set<uint16>, run: seq<Step>, j: nat, r: uint16, n: uint16, c: uint32, at: nat)
    requires Run(ids, run) && j < |run| && CachedSince(Before(ids, run, j), r, Key(n, c), at)
    ensures !HandlerRuns(ids, run, j, r, n, c)
  {
  }

  lemma NotRunAgain(ids: set<uint16>, run: seq<Step>, i: nat, j: nat, r: uint16, n: uint16, c: uint32)
    requires Run(ids, run) && i < j < |run| && HandlerRuns(ids, run, i, r, n, c)
    requires forall k :: i < k < j ==> !Forgets(run, i, k, r)
    ensures !HandlerRuns(ids, run, j, r, n, c)
  {
    RunCaches(ids, run, i, r, n, c);
    CachedUntil(ids, run, i, j, r, Key(n, c));
    CachedNotRun(ids, run, j, r, n, c, run[i].now);
  }

  lemma CachedUntil(ids: set<uint16>, run: seq<Step>, i: nat, j: nat, r: uint16, k: Key)
    requires Run(ids, run) && i < j < |run|
    requires Run(ids, run[..i + 1]) && CachedSince(Final(ids, run[..i + 1]), r, k, run[i].now)
    requires forall m :: i < m < j ==> !Forgets(run, i, m, r)
    ensures CachedSince(Before(ids, run, j), r, k, run[i].now)
  {
    var before := run[..j];
    assert before[..i + 1] == run[..i + 1];
    forall m | i + 1 <= m < j
      ensures Keeps(before[m], r, run[i].now)
    {
      assert !Forgets(run, i, m, r);
    }
    Prefix(ids, run, j);
    StaysCached(ids, before, i + 1, r, k, run[i].now);
  }

  /** A provider runs its handler for one request once, until it has forgotten the reply, not before 30 seconds. */
  lemma HandlerOnce(ids: set<uint16>, run: seq<Step>, i: nat, j: nat, r: uint16, n: uint16, c: uint32)
    requires Run(ids, run) && i < j < |run| && HandlerRuns(ids, run, i, r, n, c) && HandlerRuns(ids, run, j, r, n, c)
    ensures exists k :: i < k < j && Forgets(run, i, k, r)
  {
    if forall k :: i < k < j ==> !Forgets(run, i, k, r) {
      NotRunAgain(ids, run, i, j, r, n, c);
    }
  }

  /** So while this reply is not forgotten, all replies of a provider to one request are the same. */
  lemma RepliesAgree(ids: set<uint16>, run: seq<Step>, r: uint16, n: uint16, c: uint32, v: Bytes, w: Bytes)
    requires Run(ids, run) && n in ids && Says(Final(ids, run), r, n, c, v) && Says(Final(ids, run), r, n, c, w)
    requires forall a: nat, k: nat :: a < k < |run| && HandlerRuns(ids, run, a, r, n, c) ==> !Forgets(run, a, k, r)
    ensures v == w
  {
    RepliesAreAnswers(ids, run, r, n, c, v);
    RepliesAreAnswers(ids, run, r, n, c, w);
    var i: nat :| i < |run| && AnswersAt(ids, run, i, r, n, c, v);
    var j: nat :| j < |run| && AnswersAt(ids, run, j, r, n, c, w);
    OneRun(ids, run, i, j, r, n, c);
  }

  lemma OneRun(ids: set<uint16>, run: seq<Step>, i: nat, j: nat, r: uint16, n: uint16, c: uint32)
    requires Run(ids, run) && i < |run| && j < |run| && HandlerRuns(ids, run, i, r, n, c) && HandlerRuns(ids, run, j, r, n, c)
    requires forall a: nat, k: nat :: a < k < |run| && HandlerRuns(ids, run, a, r, n, c) ==> !Forgets(run, a, k, r)
    ensures i == j
  {
    if i < j { HandlerOnce(ids, run, i, j, r, n, c); }
    if j < i { HandlerOnce(ids, run, j, i, r, n, c); }
  }
}
