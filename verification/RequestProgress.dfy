/**
  How often a request of BusNet is sent, and what it takes to complete it: a copy at hand, or a periodic pass
  that finds it due before its deadline, and two deliveries, also when an earlier answer was lost.
*/
module RequestProgress {
  import opened Words
  import opened Packets
  import opened MessageBus
  import opened BusNet
  import opened QosDelivery
  import opened BusProgress
  import opened RequestReply
  import Q = QosEngine
  import D = DedupWindow

  /** A number not yet used is never turned away. */
  lemma NewNumberPasses(ids: set<uint16>, run: seq<Step>, r: uint16, p: uint16, packet: Packet)
    requires Run(ids, run) && r in ids && p in ids && Numbered(packet)
    requires p in Final(ids, run).hosts && packet.seqId >= Final(ids, run).hosts[p].bus.seqCounter
    ensures r in Final(ids, run).hosts && !Filtered(Final(ids, run).hosts[r].bus, p, packet)
  {
    WindowIsCalls(ids, run, r, p);
    var calls := Calls(ids, run, r, p);
    D.AfterRemembers(calls);
    forall x | x in calls
      ensures x < packet.seqId
    {
      CallsArrived(ids, run, r, p, x);
      ArrivedIsUsed(ids, run, r, p, x);
    }
  }

  lemma ArrivedIsUsed(ids: set<uint16>, run: seq<Step>, r: uint16, p: uint16, x: uint32)
    requires Run(ids, run) && First(run, r, p, x) < |run|
    ensures p in Final(ids, run).hosts && x < Final(ids, run).hosts[p].bus.seqCounter
  {
    var i := First(run, r, p, x);
    NumberNamesPacket(ids, run, p, x);
    NetGrows(ids, run, i);
    assert Enabled(Before(ids, run, i), run[i]);
  }

  // ---------------------------------------------------------------- how often a request is sent

  /** How often n's request c was dispatched. */
  function Dispatches(run: seq<Step>, n: uint16, c: uint32): (k: nat)
    decreases |run|
  {
    if run == [] then 0
    else Dispatches(Past(run), n, c) + if Last(run).at == n then SendsCopy(Last(run).act, c) else 0
  }

  /** How often n's periodic pass found request c due. */
  function Scans(ids: set<uint16>, run: seq<Step>, n: uint16, c: uint32): (k: nat)
    requires Run(ids, run)
    decreases |run|
  {
    if run == [] then 0 else Scans(ids, Past(run), n, c) + ScansNow(Final(ids, Past(run)), Last(run), n, c)
  }

  function ScansNow(s: Sys, t: Step, n: uint16, c: uint32): (k: nat)
    requires t.at in s.hosts
  {
    if t.at == n then MakesCopy(s.hosts[n], t.now, t.act, c) else 0
  }

  function SendsCopy(act: Action, c: uint32): (k: nat) {
    if act.Dispatch? && act.job.corrId == c then 1 else 0
  }

  function MakesCopy(h: Host, now: nat, act: Action, c: uint32): (k: nat) {
    if act.Extract? && c in Retries(h.bus.requests, now) then 1 else 0
  }

  function Copies(h: Host, ask: Option<Job>): (k: nat) {
    if ask.Some? then h.jobs[ask.value] else 0
  }

  function OneIf(b: bool): (k: nat) {
    if b then 1 else 0
  }

  lemma CopiesStep(h: Host, net: set<Datagram>, now: nat, act: Action, c: uint32, ask: Option<Job>)
    requires HostAsks(h, c, ask) && Can(h, net, act) && (ask.Some? ==> ask.value.corrId == c)
    ensures var next := AskAfter(act, c, ask);
            Copies(After(h, now, act), next) + SendsCopy(act, c) + OneIf(ask.Some?) ==
              Copies(h, ask) + MakesCopy(h, now, act, c) + OneIf(next.Some?)
  {
    if act.Extract? && ask.Some? { ExtractCopies(h, now, c, ask.value); }
  }

  lemma ExtractCopies(h: Host, now: nat, c: uint32, j: Job)
    requires j.corrId == c && (c in h.bus.requests ==> j == JobOf(c, h.bus.requests[c]))
    ensures Extracted(h, now).jobs[j] == h.jobs[j] + OneIf(c in Retries(h.bus.requests, now))
  {
  }

  /** Copies are conserved: one for asking and one for each pass that found it due; each is at hand or was dispatched. */
  lemma {:induction false} CopiesLedger(ids: set<uint16>, run: seq<Step>, n: uint16, c: uint32)
    requires Run(ids, run) && n in ids
    ensures n in Final(ids, run).hosts
    ensures var ask := AskOf(run, n, c);
            Dispatches(run, n, c) + Copies(Final(ids, run).hosts[n], ask) == OneIf(ask.Some?) + Scans(ids, run, n, c)
    decreases |run|
  {
    SameHosts(ids, run);
    if run != [] {
      CopiesLedger(ids, Past(run), n, c);
      RequestsAreAsked(ids, Past(run), n, c);
      var s, t := Final(ids, Past(run)), Last(run);
      if t.at == n { CopiesStep(s.hosts[n], s.net, t.now, t.act, c, AskOf(Past(run), n, c)); }
    }
  }

  /** The step that asked n's request c. */
  function AskStep(run: seq<Step>, n: uint16, c: uint32): (t: Option<Step>)
    ensures t.Some? ==> t.value.at == n && t.value.act.Ask? && t.value.act.corrId == c
    decreases |run|
  {
    if run == [] then None else AskNext(Last(run), n, c, AskStep(Past(run), n, c))
  }

  function AskNext(t: Step, n: uint16, c: uint32, asked: Option<Step>): (r: Option<Step>) {
    if t.at == n && t.act.Ask? && t.act.corrId == c then Some(t) else asked
  }

  lemma {:induction false} AskedByStep(run: seq<Step>, n: uint16, c: uint32)
    ensures AskOf(run, n, c) == match AskStep(run, n, c) case None => None case Some(t) => Some(AskedIn(t.act))
    decreases |run|
  {
    if run != [] { AskedByStep(Past(run), n, c); }
  }

  /** How long a request waits in all, and between two sends. */
  function Total(act: Action): (ms: nat)
    requires act.Ask?
  {
    TimeoutMs(act.qos, act.timeoutMs)
  }

  function Interval(act: Action): (ms: nat)
    requires act.Ask?
  {
    IntervalMs(act.qos)
  }

  function Ns(ms: nat): (ns: nat) {
    ms * Q.NS_PER_MS
  }

  /** After k passes that found it due, a request has its deadline, and its next send is k + 1 intervals or more after asking. */
  predicate Spaced(w: Waiting, deadline: nat, interval: nat, start: nat, k: nat) {
    w.deadline == deadline && Ns(w.intervalMs) == interval && w.nextRetry >= start + Times(k + 1, interval)
  }

  function Times(k: nat, n: nat): (p: nat) {
    if k == 0 then 0 else Times(k - 1, n) + n
  }

  lemma {:induction false} TimesIs(k: nat, n: nat)
    ensures Times(k, n) == k * n
  {
    if k > 0 { TimesIs(k - 1, n); }
  }

  predicate Limit(k: nat, interval: nat, total: nat) {
    k == 0 || Times(k, interval) < total
  }

  function Entry(m: Requests, c: uint32): (w: Option<Waiting>) {
    if c in m then Some(m[c]) else None
  }

  /** What one step does to the entry of request c: `scans` is 1 if a pass finds it due. */
  predicate Moves(w: Option<Waiting>, t: Step, c: uint32, scans: nat, r: Option<Waiting>) {
    if t.act.Ask? && t.act.corrId == c then
      scans == 0 && r == Some(NewEntry(t.now, t.act))
    else if scans == 1 then
      w.Some? && w.value.nextRetry <= t.now < w.value.deadline && r == Some(Delayed(w.value, t.now))
    else
      scans == 0 && (r == w || r == None)
  }

  function NewEntry(now: nat, act: Action): (w: Waiting)
    requires act.Ask?
  {
    Waiting(act.service, act.payload, act.qos, now + Ns(Total(act)), now + Ns(Interval(act)), Interval(act))
  }

  lemma OthersKeepWaiting(h: Host, now: nat, act: Action, c: uint32)
    requires !act.Extract? && !(act.Ask? && act.corrId == c)
    ensures var m := After(h, now, act).bus.requests; Entry(m, c) == Entry(h.bus.requests, c) || Entry(m, c) == None
  {
    if act.Receive? { ReceiveRequests(h.bus, act.d, act.response, now, c); }
  }

  lemma ScanEntry(m: Requests, now: nat, c: uint32)
    ensures Entry(Scanned(m, now), c) ==
      if c in Retries(m, now) then Some(Delayed(m[c], now)) else if c in Expired(m, now) then None else Entry(m, c)
  {
  }

  lemma AskEntry(h: Host, now: nat, act: Action)
    requires act.Ask?
    ensures Entry(After(h, now, act).bus.requests, act.corrId) == Some(NewEntry(now, act))
  {
  }

  lemma EntryStep(h: Host, t: Step, c: uint32)
    ensures Moves(Entry(h.bus.requests, c), t, c, MakesCopy(h, t.now, t.act, c), Entry(After(h, t.now, t.act).bus.requests, c))
  {
    if t.act.Extract? {
      ScanEntry(h.bus.requests, t.now, c);
    } else if t.act.Ask? && t.act.corrId == c {
      AskEntry(h, t.now, t.act);
    } else {
      OthersKeepWaiting(h, t.now, t.act, c);
    }
  }

  /** n's entry of request c at the end of the run. */
  function EntryAt(ids: set<uint16>, run: seq<Step>, n: uint16, c: uint32): (w: Option<Waiting>)
    requires Run(ids, run)
  {
    if n in Final(ids, run).hosts then Entry(Final(ids, run).hosts[n].bus.requests, c) else None
  }

  lemma LastMoves(ids: set<uint16>, run: seq<Step>, n: uint16, c: uint32)
    requires Run(ids, run) && run != [] && n in ids
    ensures var t := Last(run);
            var scans := ScansNow(Final(ids, Past(run)), t, n, c);
            if t.at == n then Moves(EntryAt(ids, Past(run), n, c), t, c, scans, EntryAt(ids, run, n, c))
            else scans == 0 && EntryAt(ids, run, n, c) == EntryAt(ids, Past(run), n, c)
  {
    SameHosts(ids, Past(run));
    var s, t := Final(ids, Past(run)), Last(run);
    if t.at == n { EntryStep(s.hosts[n], t, c); }
  }

  lemma AskedOnce(ids: set<uint16>, run: seq<Step>, n: uint16, c: uint32)
    requires Run(ids, run) && run != [] && n in ids && Last(run).at == n && Last(run).act.Ask? && Last(run).act.corrId == c
    ensures AskStep(Past(run), n, c) == None
  {
    RequestsAreAsked(ids, Past(run), n, c);
    AskedByStep(Past(run), n, c);
  }

  predicate Paced(w: Option<Waiting>, asked: Option<Step>, k: nat) {
    match asked
    case None => k == 0 && w == None
    case Some(t) =>
      t.act.Ask? && Limit(k, Ns(Interval(t.act)), Ns(Total(t.act))) &&
      (w.Some? ==> Spaced(w.value, t.now + Ns(Total(t.act)), Ns(Interval(t.act)), t.now, k))
  }

  /** A pass that finds the request due has not reached the deadline; it puts the next send off by an interval. */
  lemma PacedStep(w: Option<Waiting>, t: Step, c: uint32, scans: nat, r: Option<Waiting>, asked: Option<Step>, k: nat)
    requires Paced(w, asked, k) && Moves(w, t, c, scans, r) && (t.act.Ask? && t.act.corrId == c ==> asked == None)
    ensures Paced(r, AskNext(t, t.at, c, asked), k + scans)
  {
    if scans == 1 { assert Times(k + 2, Ns(Interval(asked.value.act))) == Times(k + 1, Ns(Interval(asked.value.act))) + Ns(Interval(asked.value.act)); }
  }

  lemma PaceGoesOn(w: Option<Waiting>, t: Step, n: uint16, c: uint32, scans: nat, r: Option<Waiting>, asked: Option<Step>, k: nat)
    requires Paced(w, asked, k)
    requires if t.at == n then Moves(w, t, c, scans, r) && (t.act.Ask? && t.act.corrId == c ==> asked == None) else scans == 0 && r == w
    ensures Paced(r, AskNext(t, n, c, asked), k + scans)
  {
    if t.at == n { PacedStep(w, t, c, scans, r, asked, k); }
  }

  /** An entry, the step that asked the request and a count of passes that are Paced. */
  datatype Pace = Pace(w: Option<Waiting>, asked: Option<Step>, k: nat)

  ghost function Paces(): (r: iset<Pace>) {
    iset p: Pace | Paced(p.w, p.asked, p.k)
  }

  lemma PaceIn(p: Pace)
    ensures p in Paces() <==> Paced(p.w, p.asked, p.k)
  {
  }

  /** From p to q by one step, which is a pass that finds the request due `scans` times. */
  predicate Advances(p: Pace, t: Step, n: uint16, c: uint32, scans: nat, q: Pace) {
    q.asked == AskNext(t, n, c, p.asked) && q.k == p.k + scans &&
    if t.at == n then Moves(p.w, t, c, scans, q.w) && (t.act.Ask? && t.act.corrId == c ==> p.asked == None) else scans == 0 && q.w == p.w
  }

  lemma PaceNext(p: Pace, t: Step, n: uint16, c: uint32, scans: nat, q: Pace)
    requires p in Paces() && Advances(p, t, n, c, scans, q)
    ensures q in Paces()
  {
    PaceIn(p);
    PaceGoesOn(p.w, t, n, c, scans, q.w, p.asked, p.k);
    PaceIn(q);
  }

  /** What the last step adds to the history of request c. */
  lemma LastAdds(ids: set<uint16>, run: seq<Step>, n: uint16, c: uint32)
    requires Run(ids, run) && run != []
    ensures AskStep(run, n, c) == AskNext(Last(run), n, c, AskStep(Past(run), n, c))
    ensures Scans(ids, run, n, c) == Scans(ids, Past(run), n, c) + ScansNow(Final(ids, Past(run)), Last(run), n, c)
  {
  }

  /** The history of request c in a run. */
  function PaceOf(ids: set<uint16>, run: seq<Step>, n: uint16, c: uint32): (p: Pace)
    requires Run(ids, run)
  {
    Pace(EntryAt(ids, run, n, c), AskStep(run, n, c), Scans(ids, run, n, c))
  }

  lemma LastAdvances(ids: set<uint16>, run: seq<Step>, n: uint16, c: uint32)
    requires Run(ids, run) && run != [] && n in ids
    ensures Advances(PaceOf(ids, Past(run), n, c), Last(run), n, c, ScansNow(Final(ids, Past(run)), Last(run), n, c), PaceOf(ids, run, n, c))
  {
    LastMoves(ids, run, n, c);
    LastAdds(ids, run, n, c);
    if Last(run).at == n && Last(run).act.Ask? && Last(run).act.corrId == c { AskedOnce(ids, run, n, c); }
  }

  lemma LastPaced(ids: set<uint16>, run: seq<Step>, n: uint16, c: uint32)
    requires Run(ids, run) && run != [] && n in ids && PaceOf(ids, Past(run), n, c) in Paces()
    ensures PaceOf(ids, run, n, c) in Paces()
  {
    LastAdvances(ids, run, n, c);
    PaceNext(PaceOf(ids, Past(run), n, c), Last(run), n, c, ScansNow(Final(ids, Past(run)), Last(run), n, c), PaceOf(ids, run, n, c));
  }

  lemma {:induction false} RunPaced(ids: set<uint16>, run: seq<Step>, n: uint16, c: uint32)
    requires Run(ids, run) && n in ids
    ensures PaceOf(ids, run, n, c) in Paces()
    decreases |run|
  {
    if run == [] {
      PaceIn(PaceOf(ids, run, n, c));
    } else {
      RunPaced(ids, Past(run), n, c);
      LastPaced(ids, run, n, c);
    }
  }

  lemma {:induction false} InMs(k: nat, interval: nat)
    ensures Times(k, Ns(interval)) == Ns(Times(k, interval))
  {
    if k > 0 { InMs(k - 1, interval); }
  }

  /** Not at all without asking; k times more than once only if k intervals are less than the timeout. */
  predicate InTime(asked: Option<Step>, sent: nat) {
    match asked
    case None => sent == 0
    case Some(t) => t.act.Ask? && (sent <= 1 || ((sent - 1) * Interval(t.act) < Total(t.act) && Interval(t.act) < Total(t.act)))
  }

  /**
    A request is dispatched once for being asked, and then at most as often as its retry interval fits before its
    timeout, in every run. One whose timeout is no longer than the interval is dispatched at most once.
  */
  lemma SendLimit(ids: set<uint16>, run: seq<Step>, n: uint16, c: uint32)
    requires Run(ids, run) && n in ids
    ensures InTime(AskStep(run, n, c), Dispatches(run, n, c))
  {
    SendsAreCopies(ids, run, n, c);
    RunPaced(ids, run, n, c);
    PaceInTime(PaceOf(ids, run, n, c), Dispatches(run, n, c));
  }

  lemma PaceInTime(p: Pace, sent: nat)
    requires p in Paces() && sent <= OneIf(p.asked.Some?) + p.k
    ensures InTime(p.asked, sent)
  {
    PaceIn(p);
    PacedInTime(p.w, p.asked, p.k, sent);
  }

  lemma PacedInTime(w: Option<Waiting>, asked: Option<Step>, k: nat, sent: nat)
    requires Paced(w, asked, k) && sent <= OneIf(asked.Some?) + k
    ensures InTime(asked, sent)
  {
    if asked.Some? { Fewer(sent, k, Interval(asked.value.act), Total(asked.value.act)); }
  }

  lemma SendsAreCopies(ids: set<uint16>, run: seq<Step>, n: uint16, c: uint32)
    requires Run(ids, run) && n in ids
    ensures Dispatches(run, n, c) <= OneIf(AskStep(run, n, c).Some?) + Scans(ids, run, n, c)
  {
    AskedByStep(run, n, c);
    CopiesLedger(ids, run, n, c);
  }

  lemma Fewer(sent: nat, k: nat, interval: nat, total: nat)
    requires Limit(k, Ns(interval), Ns(total)) && sent <= 1 + k
    ensures sent <= 1 || ((sent - 1) * interval < total && interval < total)
  {
    if sent > 1 {
      InMs(k, interval);
      TimesGrow(sent - 1, k, interval);
      TimesGrow(1, k, interval);
      TimesIs(sent - 1, interval);
      TimesIs(1, interval);
    }
  }

  lemma {:induction false} TimesGrow(j: nat, k: nat, n: nat)
    requires j <= k
    ensures Times(j, n) <= Times(k, n)
  {
    if j < k { TimesGrow(j, k - 1, n); }
  }

  /** A waiting request can ever be found due exactly if its next send is before its deadline. */
  lemma DueIff(m: Requests, c: uint32)
    ensures (exists now :: c in Retries(m, now)) <==> c in m && m[c].nextRetry < m[c].deadline
  {
    if c in m && m[c].nextRetry < m[c].deadline { assert c in Retries(m, m[c].nextRetry); }
  }

  /** Which for a request just made means that the interval is shorter than the timeout. */
  lemma NewDueIff(n: Node, c: uint32, service: string, payload: Bytes, qos: Q.Profile, timeoutMs: nat, at: nat)
    ensures (exists now :: c in Retries(Asked(n, c, service, payload, qos, timeoutMs, at).requests, now)) <==>
              IntervalMs(qos) < TimeoutMs(qos, timeoutMs)
  {
    DueIff(Asked(n, c, service, payload, qos, timeoutMs, at).requests, c);
  }

  // ---------------------------------------------------------------- completing a request

  /** A copy is at hand, or a pass can still make one. */
  predicate Sendable(h: Host, c: uint32) {
    !NoCopy(h.jobs, c) || !NeverDue(Entry(h.bus.requests, c))
  }

  predicate NoCopy(jobs: multiset<Job>, c: uint32) {
    forall j :: j in jobs ==> j.corrId != c
  }

  predicate NeverDue(w: Option<Waiting>) {
    w.Some? ==> w.value.deadline <= w.value.nextRetry
  }

  /** What Sendable means for a request still waiting. */
  lemma SendableIff(ids: set<uint16>, run: seq<Step>, n: uint16, c: uint32)
    requires Run(ids, run) && n in ids && n in Final(ids, run).hosts && c in Final(ids, run).hosts[n].bus.requests
    ensures var h := Final(ids, run).hosts[n];
            Sendable(h, c) <==> JobOf(c, h.bus.requests[c]) in h.jobs || exists now :: c in Retries(h.bus.requests, now)
  {
    RequestsAreAsked(ids, run, n, c);
    DueIff(Final(ids, run).hosts[n].bus.requests, c);
  }

  /** Asked, and neither a copy at hand nor one to come. */
  predicate Given(h: Host, c: uint32) {
    NoCopy(h.jobs, c) && NeverDue(Entry(h.bus.requests, c)) && Asking(h, c)
  }

  predicate Asking(h: Host, c: uint32) {
    c !in h.drawn && c < h.bus.corrCounter
  }

  lemma AskingStep(h: Host, net: set<Datagram>, now: nat, act: Action, c: uint32)
    requires Asking(h, c) && Fresh(h) && Can(h, net, act)
    ensures Asking(After(h, now, act), c) && !(act.Ask? && act.corrId == c)
  {
    CounterGrows(h, now, act);
  }

  lemma NoCopyStep(h: Host, now: nat, act: Action, c: uint32)
    requires NoCopy(h.jobs, c) && NeverDue(Entry(h.bus.requests, c)) && !(act.Ask? && act.corrId == c)
    ensures NoCopy(After(h, now, act).jobs, c)
  {
  }

  lemma GivenStep(h: Host, net: set<Datagram>, t: Step, c: uint32)
    requires Given(h, c) && Fresh(h) && Can(h, net, t.act)
    ensures Given(After(h, t.now, t.act), c) && SendsCopy(t.act, c) == 0
  {
    AskingStep(h, net, t.now, t.act, c);
    NoCopyStep(h, t.now, t.act, c);
    EntryStep(h, t, c);
  }

  /** Then no run ever dispatches it again. */
  lemma {:induction false} NeverSentAgain(ids: set<uint16>, run: seq<Step>, i: nat, n: uint16, c: uint32)
    requires Run(ids, run) && i <= |run| && n in ids && Run(ids, run[..i]) && n in Final(ids, run[..i]).hosts
    requires AskOf(run[..i], n, c).Some? && !Sendable(Final(ids, run[..i]).hosts[n], c)
    ensures n in Final(ids, run).hosts && Given(Final(ids, run).hosts[n], c) && Dispatches(run, n, c) == Dispatches(run[..i], n, c)
    decreases |run|
  {
    SameHosts(ids, run);
    if i < |run| {
      assert Past(run)[..i] == run[..i];
      NeverSentAgain(ids, Past(run), i, n, c);
      var s, t := Final(ids, Past(run)), Last(run);
      if t.at == n { GivenStep(s.hosts[n], s.net, t, c); }
    } else {
      assert run[..i] == run;
      RequestsAreAsked(ids, run, n, c);
    }
  }

  function Ordered(b: Node, j: Job, r: uint16): (d: Datagram) {
    Datagram(b.id, r, Request(b.seqCounter, j.qos.level, j.corrId, SVC + j.service, j.payload))
  }

  lemma DispatchTo(s: Sys, n: uint16, r: uint16, to: seq<uint16>, j: Job, now: nat)
    requires Pair(s, n, r) && r in to && j in s.hosts[n].jobs && s.hosts[n].bus.seqCounter < WORD - 2
    ensures Enabled(s, Step(n, now, Action.Dispatch(j, to)))
    ensures var q := Apply(s, Step(n, now, Action.Dispatch(j, to)));
            Pair(q, n, r) && q.hosts[r] == s.hosts[r] && q.hosts[n].bus.requests == s.hosts[n].bus.requests &&
            Ordered(s.hosts[n].bus, j, r) in q.net
  {
    var sent := MessageBus.Dispatch(s.hosts[n].bus, j.corrId, j.service, j.payload, j.qos.level, to);
    var k :| 0 <= k < |to| && to[k] == r;
    assert sent[k] == Ordered(s.hosts[n].bus, j, r) && sent[k] in sent;
  }

  /** The provider has an answer: one it remembers, or its handler's. */
  predicate CanAnswer(b: Node, n: uint16, c: uint32, service: string) {
    Key(n, c) in b.cache || service in b.services
  }

  /** The payload of the answer, v being what the handler would say. */
  function AnswerOf(b: Node, n: uint16, c: uint32, v: Bytes): (a: Bytes) {
    if Key(n, c) in b.cache then b.cache[Key(n, c)].response else v
  }

  function Answering(b: Node, d: Datagram, v: Bytes): (reply: Datagram)
    requires d.packet.Request?
  {
    var key := Key(d.from, d.packet.corrId);
    ReplyTo(b, d, if key in b.cache then b.cache[key].level else d.packet.level, AnswerOf(b, d.from, d.packet.corrId, v))
  }

  lemma ServedReplies(m: Node, d: Datagram, v: Bytes, now: nat)
    requires d.packet.Request? && (Key(d.from, d.packet.corrId) in m.cache || Runs(m, d))
    ensures Served(m, d, v, now).sent == [Answering(m, d, v)]
  {
  }

  lemma DeliverRequest(s: Sys, n: uint16, r: uint16, d: Datagram, v: Bytes, now: nat)
    requires Pair(s, n, r) && d in s.net && d.from == n && d.to == r && d.packet.Request?
    requires s.hosts[r].bus.seqCounter < WORD - 2 && !Filtered(s.hosts[r].bus, n, d.packet)
    requires CanAnswer(s.hosts[r].bus, n, d.packet.corrId, ServiceName(d.packet.topic))
    ensures Enabled(s, Deliver(d, now, v))
    ensures var q := Apply(s, Deliver(d, now, v));
            Pair(q, n, r) && q.hosts[n] == s.hosts[n] && Answering(s.hosts[r].bus, d, v) in q.net
  {
    var m := Checked(s.hosts[r].bus, n, d.packet, now);
    ServedReplies(m, d, v, now);
    assert Answering(m, d, v) == Answering(s.hosts[r].bus, d, v);
    ElementsOfOne(Answering(m, d, v));
  }

  /** The run goes on with the request sent once more, its delivery to r, and the delivery of the answer. */
  function WithEnquiry(run: seq<Step>, s: Sys, n: uint16, r: uint16, to: seq<uint16>, j: Job, v: Bytes, now: nat): (after: seq<Step>)
    requires n in s.hosts && r in s.hosts
    ensures run <= after && forall k :: |run| <= k < |after| ==> after[k].now == now
  {
    var d := Ordered(s.hosts[n].bus, j, r);
    run + [Step(n, now, Action.Dispatch(j, to))] + [Deliver(d, now, v)] + [Deliver(Answering(s.hosts[r].bus, d, v), now, [])]
  }

  /** If no copy of the request is at hand, the periodic pass makes one first. */
  function WithResend(run: seq<Step>, s: Sys, n: uint16, r: uint16, to: seq<uint16>, j: Job, v: Bytes, now: nat): (after: seq<Step>)
    requires n in s.hosts && r in s.hosts
    ensures run <= after && forall k :: |run| <= k < |after| ==> after[k].now == now
  {
    WithEnquiry(if j in s.hosts[n].jobs then run else run + [Step(n, now, Extract)], s, n, r, to, j, v, now)
  }

  /**
    A request still waiting of which a copy is at hand, or which is due at `now`: sending it to any targets among
    which is a provider, and two deliveries there and back, resolve its promise with the answer the provider remembers, or else with what its handler says.
  */
  lemma RequestCompletes(ids: set<uint16>, run: seq<Step>, n: uint16, r: uint16, to: seq<uint16>, c: uint32, v: Bytes, now: nat)
    requires Run(ids, run) && n in ids && r in ids && n != r && r in to
    requires n in Final(ids, run).hosts && r in Final(ids, run).hosts && c in Final(ids, run).hosts[n].bus.requests
    requires var h := Final(ids, run).hosts[n];
             JobOf(c, h.bus.requests[c]) in h.jobs || c in Retries(h.bus.requests, now)
    requires Final(ids, run).hosts[n].bus.seqCounter < WORD - 2 && Final(ids, run).hosts[n].bus.corrCounter < WORD - 1
    requires Final(ids, run).hosts[r].bus.seqCounter < WORD - 2 && Final(ids, run).hosts[r].bus.corrCounter < WORD - 1
    requires CanAnswer(Final(ids, run).hosts[r].bus, n, c, Final(ids, run).hosts[n].bus.requests[c].service)
    ensures var s := Final(ids, run);
            var after := WithResend(run, s, n, r, to, JobOf(c, s.hosts[n].bus.requests[c]), v, now);
            Run(ids, after) && Outcomes(ids, after, n, c) == [Value(AnswerOf(s.hosts[r].bus, n, c, v))]
  {
    var s := Final(ids, run);
    var j := JobOf(c, s.hosts[n].bus.requests[c]);
    BothAtHome(ids, run, n, r);
    if j in s.hosts[n].jobs {
      EnquiryRuns(ids, run, n, r, to, j, v, now);
    } else {
      var t := Step(n, now, Extract);
      PassMakesCopy(s, n, r, c, now);
      Extend(ids, run, t);
      EnquiryRuns(ids, run + [t], n, r, to, j, v, now);
      SameEnquiry(run + [t], s, Final(ids, run + [t]), n, r, to, j, v, now);
    }
  }

  lemma PassMakesCopy(s: Sys, n: uint16, r: uint16, c: uint32, now: nat)
    requires Pair(s, n, r) && c in Retries(s.hosts[n].bus.requests, now)
    ensures var t := Step(n, now, Extract);
            var q := if Enabled(s, t) then Apply(s, t) else s;
            Enabled(s, t) && Pair(q, n, r) && q.hosts[r] == s.hosts[r] && c in q.hosts[n].bus.requests &&
            q.hosts[n].bus.id == s.hosts[n].bus.id && q.hosts[n].bus.seqCounter == s.hosts[n].bus.seqCounter &&
            JobOf(c, s.hosts[n].bus.requests[c]) in q.hosts[n].jobs
  {
    assert JobOf(c, s.hosts[n].bus.requests[c]) in RetryJobs(s.hosts[n].bus.requests, now);
  }

  lemma SameEnquiry(run: seq<Step>, s: Sys, q: Sys, n: uint16, r: uint16, to: seq<uint16>, j: Job, v: Bytes, now: nat)
    requires Pair(s, n, r) && Pair(q, n, r) && q.hosts[r] == s.hosts[r] && q.hosts[n].bus.seqCounter == s.hosts[n].bus.seqCounter
    ensures WithEnquiry(run, q, n, r, to, j, v, now) == WithEnquiry(run, s, n, r, to, j, v, now)
  {
  }

  lemma EnquiryRuns(ids: set<uint16>, run: seq<Step>, n: uint16, r: uint16, to: seq<uint16>, j: Job, v: Bytes, now: nat)
    requires Run(ids, run) && n in ids && r in ids && r in to && Pair(Final(ids, run), n, r)
    requires j in Final(ids, run).hosts[n].jobs && j.corrId in Final(ids, run).hosts[n].bus.requests
    requires Final(ids, run).hosts[n].bus.seqCounter < WORD - 2 && Final(ids, run).hosts[r].bus.seqCounter < WORD - 2
    requires CanAnswer(Final(ids, run).hosts[r].bus, n, j.corrId, j.service)
    ensures var s := Final(ids, run);
            var after := WithEnquiry(run, s, n, r, to, j, v, now);
            Run(ids, after) && Outcomes(ids, after, n, j.corrId) == [Value(AnswerOf(s.hosts[r].bus, n, j.corrId, v))]
  {
    RequestSent(ids, run, n, r, to, j, now);
    AskedAnswered(ids, run + [Step(n, now, Action.Dispatch(j, to))], n, r, j.corrId, Ordered(Final(ids, run).hosts[n].bus, j, r), v, now);
  }

  lemma RequestSent(ids: set<uint16>, run: seq<Step>, n: uint16, r: uint16, to: seq<uint16>, j: Job, now: nat)
    requires Run(ids, run) && n in ids && r in ids && r in to && Pair(Final(ids, run), n, r) && j in Final(ids, run).hosts[n].jobs
    requires Final(ids, run).hosts[n].bus.seqCounter < WORD - 2
    ensures var s, t1 := Final(ids, run), Step(n, now, Action.Dispatch(j, to));
            var d := Ordered(s.hosts[n].bus, j, r);
            Run(ids, run + [t1]) && Pair(Final(ids, run + [t1]), n, r) && d in Final(ids, run + [t1]).net &&
            Final(ids, run + [t1]).hosts[r] == s.hosts[r] &&
            Final(ids, run + [t1]).hosts[n].bus.requests == s.hosts[n].bus.requests &&
            !Filtered(s.hosts[r].bus, n, d.packet) && ServiceName(d.packet.topic) == j.service
  {
    var s := Final(ids, run);
    var d := Ordered(s.hosts[n].bus, j, r);
    ServiceNameOf(j.service);
    NewNumberPasses(ids, run, r, n, d.packet);
    DispatchTo(s, n, r, to, j, now);
    Extend(ids, run, Step(n, now, Action.Dispatch(j, to)));
  }

  lemma AskedAnswered(ids: set<uint16>, run: seq<Step>, n: uint16, r: uint16, c: uint32, d: Datagram, v: Bytes, now: nat)
    requires Run(ids, run) && n in ids && r in ids && Pair(Final(ids, run), n, r) && d in Final(ids, run).net
    requires d.from == n && d.to == r && d.packet.Request? && d.packet.corrId == c && c in Final(ids, run).hosts[n].bus.requests
    requires var b := Final(ids, run).hosts[r].bus;
             b.seqCounter < WORD - 2 && !Filtered(b, n, d.packet) && CanAnswer(b, n, c, ServiceName(d.packet.topic))
    ensures var b := Final(ids, run).hosts[r].bus;
            var after := run + [Deliver(d, now, v)] + [Deliver(Answering(b, d, v), now, [])];
            Run(ids, after) && Outcomes(ids, after, n, c) == [Value(AnswerOf(b, n, c, v))]
  {
    var s := Final(ids, run);
    var reply := Answering(s.hosts[r].bus, d, v);
    var t1, t2 := Deliver(d, now, v), Deliver(reply, now, []);
    DeliverRequest(s, n, r, d, v, now);
    Extend(ids, run, t1);
    NewNumberPasses(ids, run, n, r, reply.packet);
    PromiseLedger(ids, run, n, c);
    Extend(ids, run + [t1], t2);
    assert Resolves(Final(ids, run + [t1]).hosts[n], now, t2.act, c) == [Value(AnswerOf(s.hosts[r].bus, n, c, v))];
  }

  // ---------------------------------------------------------------- timing out

  lemma PassTakesOut(s: Sys, n: uint16, c: uint32, now: nat)
    requires n in s.hosts && Fresh(s.hosts[n]) && c in s.hosts[n].bus.requests && now >= s.hosts[n].bus.requests[c].deadline
    ensures var t, u := Step(n, now, Extract), Step(n, now, Fail(c));
            Enabled(s, t) && Enabled(Apply(s, t), u) && c !in Apply(s, t).hosts[n].bus.requests &&
            Resolves(s.hosts[n], now, t.act, c) == [] && Resolves(Apply(s, t).hosts[n], now, u.act, c) == [TimedOut]
  {
  }

  /** A request still waiting at its deadline: the next periodic pass takes it out and its promise fails with a timeout. */
  lemma RequestTimesOut(ids: set<uint16>, run: seq<Step>, n: uint16, c: uint32, now: nat)
    requires Run(ids, run) && n in ids && n in Final(ids, run).hosts && Fresh(Final(ids, run).hosts[n])
    requires c in Final(ids, run).hosts[n].bus.requests && now >= Final(ids, run).hosts[n].bus.requests[c].deadline
    ensures var after := run + [Step(n, now, Extract)] + [Step(n, now, Fail(c))];
            Run(ids, after) && Outcomes(ids, after, n, c) == [TimedOut]
  {
    var s, t, u := Final(ids, run), Step(n, now, Extract), Step(n, now, Fail(c));
    PromiseLedger(ids, run, n, c);
    PassTakesOut(s, n, c, now);
    Extend(ids, run, t);
    Extend(ids, run + [t], u);
  }
}
