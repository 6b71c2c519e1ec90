/**
  The two retransmission tables of QoSEngine (src/core/qos_engine.h): unacknowledged PUBLISH or REPLY
  packets in `pending`, unconfirmed PUBREL packets in `pendingRel`, both swept on a timer.
  An entry's bytes and resend callback together are the datagram it sends again. Times are readings of one
  clock in nanoseconds, passed to each call.
*/
module QosEngine {
  import opened Words
  import opened Packets
  import D = DedupWindow

  const NS_PER_MS := 1_000_000
  const IDLE_TTL_NS := 30_000_000_000

  datatype Profile = Profile(level: Level, maxRetries: uint32, retryIntervalMs: uint32, ackTimeoutMs: uint32)
  datatype Pending = Pending(
    seqId: uint32, data: Datagram, lastSent: nat, retryCount: nat, maxRetries: uint32, retryIntervalMs: uint32)

  type Table = map<uint32, Pending>

  /** The profile of a level with every other field at its default. */
  function DefaultProfile(level: Level): (q: Profile) {
    Profile(level, 3, 100, 500)
  }

  function Make(seqId: uint32, data: Datagram, qos: Profile, now: nat): (p: Pending) {
    Pending(seqId, data, now, 0, qos.maxRetries, qos.retryIntervalMs)
  }

  /** Whole milliseconds from `last` to `now`, truncated towards zero. */
  function ElapsedMs(now: nat, last: nat): (ms: int) {
    if now >= last then (now - last) / NS_PER_MS else -((last - now) / NS_PER_MS)
  }

  predicate Overdue(p: Pending, now: nat) {
    ElapsedMs(now, p.lastSent) >= p.retryIntervalMs
  }

  predicate Exhausted(p: Pending) {
    p.retryCount >= p.maxRetries
  }

  function Retried(p: Pending, now: nat): (r: Pending) {
    p.(retryCount := p.retryCount + 1, lastSent := now)
  }

  // ---------------------------------------------------------------- the tables as values

  /** The keys a sweep drops, the keys it sends again, and the table it leaves. */
  function Dropped(m: Table, now: nat): (r: set<uint32>) {
    set k | k in m && Overdue(m[k], now) && Exhausted(m[k])
  }

  function Resent(m: Table, now: nat): (r: set<uint32>) {
    set k | k in m && Overdue(m[k], now) && !Exhausted(m[k])
  }

  function Swept(m: Table, now: nat, sentAt: nat): (r: Table) {
    map k | k in m && k !in Dropped(m, now) :: if k in Resent(m, now) then Retried(m[k], sentAt) else m[k]
  }

  predicate Keyed(m: Table) {
    forall k :: k in m ==> m[k].seqId == k
  }

  /** A list without repetition of exactly the keys in s. */
  ghost predicate Lists(l: seq<uint32>, s: set<uint32>) {
    (forall i, j :: 0 <= i < j < |l| ==> l[i] != l[j]) && (forall k :: k in l <==> k in s)
  }

  lemma ListsMore(l: seq<uint32>, s: set<uint32>, k: uint32)
    requires Lists(l, s) && k !in s
    ensures Lists(l + [k], s + {k})
  {
  }

  function Data(m: Table, keys: seq<uint32>): (r: seq<Datagram>)
    requires forall k :: k in keys ==> k in m
  {
    seq(|keys|, i requires 0 <= i < |keys| => assert keys[i] in keys; m[keys[i]].data)
  }

  /** Of a list of keys, one datagram each goes out, and no other. */
  lemma DataLists(m: Table, keys: seq<uint32>, s: set<uint32>)
    requires Lists(keys, s) && s <= m.Keys
    ensures |Data(m, keys)| == |keys|
    ensures forall d :: d in Data(m, keys) <==> exists k :: k in s && m[k].data == d
  {
    forall k | k in s
      ensures m[k].data in Data(m, keys)
    {
      var i :| 0 <= i < |keys| && keys[i] == k;
      assert Data(m, keys)[i] == m[k].data;
    }
    forall d | d in Data(m, keys)
      ensures exists k :: k in s && m[k].data == d
    {
      var i :| 0 <= i < |keys| && Data(m, keys)[i] == d;
      assert keys[i] in s;
    }
  }

  predicate Idle(touched: map<uint16, nat>, s: uint16, now: nat) {
    s in touched && now - touched[s] > IDLE_TTL_NS
  }

  // ---------------------------------------------------------------- in place

  class Engine {
    var pending: Table
    var pendingRel: Table
    var windows: map<uint16, D.Window>
    var touched: map<uint16, nat>

    ghost predicate Valid()
      reads this
    {
      Keyed(pending) && Keyed(pendingRel) && windows.Keys == touched.Keys
    }

    constructor ()
      ensures Valid() && pending == map[] && pendingRel == map[] && windows == map[] && touched == map[]
    {
      pending, pendingRel, windows, touched := map[], map[], map[], map[];
    }

    method AddPending(seqId: uint32, data: Datagram, qos: Profile, now: nat)
      requires Valid()
      modifies `pending
      ensures Valid() && pending == old(pending)[seqId := Make(seqId, data, qos, now)]
    {
      pending := pending[seqId := Make(seqId, data, qos, now)];
    }

    method OnAck(seqId: uint32)
      requires Valid()
      modifies `pending
      ensures Valid() && pending == old(pending) - {seqId}
    {
      pending := pending - {seqId};
    }

    method OnNack(seqId: uint32, now: nat) returns (resent: seq<Datagram>)
      requires Valid()
      modifies `pending
      ensures Valid()
      ensures seqId !in old(pending) ==> pending == old(pending) && resent == []
      ensures seqId in old(pending) ==>
                pending == old(pending)[seqId := Retried(old(pending)[seqId], now)] && resent == [old(pending)[seqId].data]
    {
      resent := [];
      if seqId in pending {
        resent := [pending[seqId].data];
        pending := pending[seqId := Retried(pending[seqId], now)];
      }
    }

    method OnPubrec(seqId: uint32) returns (was: bool)
      requires Valid()
      modifies `pending
      ensures Valid() && was == (seqId in old(pending)) && pending == old(pending) - {seqId}
    {
      was := seqId in pending;
      pending := pending - {seqId};
    }

    method AddPendingRel(seqId: uint32, data: Datagram, qos: Profile, now: nat)
      requires Valid()
      modifies `pendingRel
      ensures Valid() && pendingRel == old(pendingRel)[seqId := Make(seqId, data, qos, now)]
    {
      pendingRel := pendingRel[seqId := Make(seqId, data, qos, now)];
    }

    method OnPubcomp(seqId: uint32)
      requires Valid()
      modifies `pendingRel
      ensures Valid() && pendingRel == old(pendingRel) - {seqId}
    {
      pendingRel := pendingRel - {seqId};
    }

    /** Sweeps both tables; `sentAt` is the clock when the retransmissions go out. */
    method ProcessTimeouts(now: nat, sentAt: nat) returns (abandoned: seq<uint32>, resent: seq<Datagram>)
      requires Valid()
      modifies `pending, `pendingRel
      ensures Valid()
      ensures pending == Swept(old(pending), now, sentAt) && pendingRel == Swept(old(pendingRel), now, sentAt)
      ensures exists a, b :: abandoned == a + b &&
                Lists(a, Dropped(old(pending), now)) && Lists(b, Dropped(old(pendingRel), now))
      ensures exists a, b :: Lists(a, Resent(old(pending), now)) && Lists(b, Resent(old(pendingRel), now)) &&
                resent == Data(old(pending), a) + Data(old(pendingRel), b)
    {
      var m, lost, again := Sweep(pending, now, sentAt);
      ghost var again1 := again;
      resent := Data(pending, again);
      pending, abandoned := m, lost;
      m, lost, again := Sweep(pendingRel, now, sentAt);
      resent := resent + Data(pendingRel, again);
      pendingRel, abandoned := m, abandoned + lost;
      assert resent == Data(old(pending), again1) + Data(old(pendingRel), again);
    }

    /** Duplicate test of the window of `source`, which is created on first use. */
    method IsDuplicate(source: uint16, seqId: uint32, now: nat) returns (duplicate: bool)
      requires Valid()
      modifies `windows, `touched
      ensures Valid()
      ensures var w := if source in old(windows) then old(windows)[source] else D.FRESH;
              duplicate == D.Duplicate(w, seqId) && windows == old(windows)[source := D.Marked(w, seqId)]
      ensures touched == old(touched)[source := now]
    {
      var w := if source in windows then windows[source] else D.FRESH;
      var filter := new D.Filter.FromValue(w);
      duplicate := filter.CheckAndMark(seqId);
      windows := windows[source := filter.Value()];
      touched := touched[source := now];
    }

    /** Reclaims the windows idle for more than 30 seconds. */
    method CleanupDedupWindow(now: nat)
      requires Valid()
      modifies `windows, `touched
      ensures Valid()
      ensures windows == map s | s in old(windows) && !Idle(old(touched), s, now) :: old(windows)[s]
      ensures touched == map s | s in old(touched) && !Idle(old(touched), s, now) :: old(touched)[s]
    {
      windows := map s | s in windows && !Idle(touched, s, now) :: windows[s];
      touched := map s | s in touched && !Idle(touched, s, now) :: touched[s];
    }
  }

  /** The pass has still to come to the entries in `todo`. */
  function SweptBut(m: Table, todo: set<uint32>, now: nat, sentAt: nat): (r: Table) {
    map k | k in m && (k in todo || k !in Dropped(m, now)) :: if k !in todo && k in Resent(m, now) then Retried(m[k], sentAt) else m[k]
  }

  /** What the pass does to one entry. */
  lemma SweepOne(m: Table, todo: set<uint32>, now: nat, sentAt: nat, k: uint32)
    requires todo <= m.Keys && k in todo
    ensures var r := SweptBut(m, todo, now, sentAt);
            k in r && r[k] == m[k] &&
            SweptBut(m, todo - {k}, now, sentAt) ==
              (if k in Dropped(m, now) then r - {k} else if k in Resent(m, now) then r[k := Retried(m[k], sentAt)] else r)
    ensures Dropped(m, now) - (todo - {k}) == (Dropped(m, now) - todo) + (if k in Dropped(m, now) then {k} else {})
    ensures Resent(m, now) - (todo - {k}) == (Resent(m, now) - todo) + (if k in Resent(m, now) then {k} else {})
  {
  }

  /** One pass over a table in whatever order its keys come. */
  method Sweep(m: Table, now: nat, sentAt: nat) returns (r: Table, lost: seq<uint32>, again: seq<uint32>)
    requires Keyed(m)
    ensures Keyed(r) && r == Swept(m, now, sentAt)
    ensures Lists(lost, Dropped(m, now)) && Lists(again, Resent(m, now))
  {
    r, lost, again := m, [], [];
    var todo := m.Keys;
    while todo != {}
      invariant todo <= m.Keys && r == SweptBut(m, todo, now, sentAt)
      invariant Lists(lost, Dropped(m, now) - todo) && Lists(again, Resent(m, now) - todo)
      decreases |todo|
    {
      var k :| k in todo;
      SweepOne(m, todo, now, sentAt, k);
      ListsMore(lost, Dropped(m, now) - todo, k);
      ListsMore(again, Resent(m, now) - todo, k);
      var p := r[k];
      if Overdue(p, now) {
        if Exhausted(p) {
          lost := lost + [p.seqId];
          r := r - {k};
        } else {
          r := r[k := Retried(p, sentAt)];
          again := again + [k];
        }
      }
      todo := todo - {k};
    }
  }

  // ---------------------------------------------------------------- a table over its whole life

  datatype Event =
    | Add(seqId: uint32, data: Datagram, qos: Profile, now: nat)
    | Ack(seqId: uint32)
    | Nack(seqId: uint32, now: nat)
    | Timeouts(now: nat, sentAt: nat)

  function React(m: Table, e: Event): (r: Table) {
    match e
    case Add(k, data, qos, now) => m[k := Make(k, data, qos, now)]
    case Ack(k) => m - {k}
    case Nack(k, now) => if k in m then m[k := Retried(m[k], now)] else m
    case Timeouts(now, sentAt) => Swept(m, now, sentAt)
  }

  function TableAfter(events: seq<Event>): (m: Table) {
    if events == [] then map[] else React(TableAfter(events[..|events| - 1]), events[|events| - 1])
  }

  /** How often sweeps have sent entry k again since it was last added. */
  function SweepResends(events: seq<Event>, k: uint32): (n: nat) {
    if events == [] then 0
    else
      var before, e := events[..|events| - 1], events[|events| - 1];
      if e.Add? && e.seqId == k then 0
      else if e.Timeouts? && k in Resent(TableAfter(before), e.now) then SweepResends(before, k) + 1
      else SweepResends(before, k)
  }

  /** How often sweeps have dropped entry k since it was last added. */
  function Drops(events: seq<Event>, k: uint32): (n: nat) {
    if events == [] then 0
    else
      var before, e := events[..|events| - 1], events[|events| - 1];
      if e.Add? && e.seqId == k then 0
      else if e.Timeouts? && k in Dropped(TableAfter(before), e.now) then Drops(before, k) + 1
      else Drops(before, k)
  }

  /** The retry limit entry k was last added with. */
  function Limit(events: seq<Event>, k: uint32): (n: uint32) {
    if events == [] then 0
    else
      var e := events[|events| - 1];
      if e.Add? && e.seqId == k then e.qos.maxRetries else Limit(events[..|events| - 1], k)
  }

  /** Sweeps resend an entry at most maxRetries times, NACKs or not, and drop it at most once. */
  lemma {:induction false} RetryBound(events: seq<Event>, k: uint32)
    ensures SweepResends(events, k) <= Limit(events, k)
    ensures Drops(events, k) <= 1
    ensures k in TableAfter(events) ==>
              Drops(events, k) == 0 && SweepResends(events, k) <= TableAfter(events)[k].retryCount &&
              TableAfter(events)[k].maxRetries == Limit(events, k)
  {
    if events != [] {
      RetryBound(events[..|events| - 1], k);
    }
  }

  /** Once acknowledged (or dropped), an entry is neither resent nor dropped until it is added again. */
  lemma {:induction false} SilentOnceGone(events: seq<Event>, later: seq<Event>, k: uint32)
    requires k !in TableAfter(events)
    requires forall e :: e in later ==> !(e.Add? && e.seqId == k)
    ensures k !in TableAfter(events + later)
    ensures SweepResends(events + later, k) == SweepResends(events, k) && Drops(events + later, k) == Drops(events, k)
  {
    if later == [] {
      assert events + later == events;
    } else {
      var n := |later| - 1;
      assert (events + later)[..|events + later| - 1] == events + later[..n];
      SilentOnceGone(events, later[..n], k);
    }
  }

  // ---------------------------------------------------------------- exactly how often

  /** At least `gapMs` whole milliseconds have passed since `sent`; a clock reading less than one millisecond back counts as none. */
  predicate Waited(sent: nat, now: nat, gapMs: nat) {
    if gapMs == 0 then now + 1_000_000 > sent else now >= sent + gapMs * 1_000_000
  }

  /** How many sweeps have come too late for a packet first sent at `sent`, each of them sending it again, and when it was sent last. */
  datatype Count = Count(late: nat, last: nat)

  function Counted(later: seq<Event>, sent: nat, gapMs: nat): (c: Count) {
    if later == [] then Count(0, sent)
    else
      var c, e := Counted(later[..|later| - 1], sent, gapMs), later[|later| - 1];
      if e.Timeouts? && Waited(c.last, e.now, gapMs) then Count(c.late + 1, e.sentAt) else c
  }

  /** Nothing but sweeps and other packets. */
  predicate Unanswered(later: seq<Event>, k: uint32) {
    forall e :: e in later ==> e.Timeouts? || e.seqId != k
  }

  lemma WaitedIsOverdue(p: Pending, now: nat)
    ensures Overdue(p, now) <==> Waited(p.lastSent, now, p.retryIntervalMs)
  {
  }

  predicate Lives(m: Table, k: uint32, data: Datagram, qos: Profile, c: Count) {
    if c.late > qos.maxRetries then k !in m
    else k in m && m[k] == Pending(k, data, c.last, c.late, qos.maxRetries, qos.retryIntervalMs)
  }

  /** One more event, as one entry sees it. */
  lemma LivesOn(m: Table, k: uint32, data: Datagram, qos: Profile, c: Count, e: Event)
    requires Lives(m, k, data, qos, c) && (e.Timeouts? || e.seqId != k)
    ensures var late := e.Timeouts? && Waited(c.last, e.now, qos.retryIntervalMs);
            Lives(React(m, e), k, data, qos, if late then Count(c.late + 1, e.sentAt) else c) &&
            (e.Timeouts? ==> (k in Resent(m, e.now) <==> late && c.late < qos.maxRetries) &&
                             (k in Dropped(m, e.now) <==> late && c.late == qos.maxRetries))
  {
    if k in m && e.Timeouts? { WaitedIsOverdue(m[k], e.now); }
  }

  lemma Snoc(a: seq<Event>, b: seq<Event>)
    requires b != []
    ensures var all := a + b; all[..|all| - 1] == a + b[..|b| - 1] && all[|all| - 1] == b[|b| - 1]
  {
  }

  /**
    A packet registered with r retries and not answered is sent again by exactly the first r sweeps that find it
    unsent for its interval; the next such sweep, and none before, drops it.
  */
  lemma {:induction false} RetriedExactly(events: seq<Event>, k: uint32, data: Datagram, qos: Profile, t: nat, later: seq<Event>)
    requires Unanswered(later, k)
    ensures var all := events + [Add(k, data, qos, t)] + later;
            var c := Counted(later, t, qos.retryIntervalMs);
            SweepResends(all, k) == (if c.late < qos.maxRetries then c.late else qos.maxRetries) &&
            Drops(all, k) == (if c.late > qos.maxRetries then 1 else 0) &&
            Lives(TableAfter(all), k, data, qos, c)
    decreases |later|
  {
    var start := events + [Add(k, data, qos, t)];
    if later == [] {
      assert start + later == start && start[..|start| - 1] == events;
    } else {
      var front, e := later[..|later| - 1], later[|later| - 1];
      assert e in later && forall x :: x in front ==> x in later;
      RetriedExactly(events, k, data, qos, t, front);
      Snoc(start, later);
      LivesOn(TableAfter(start + front), k, data, qos, Counted(front, t, qos.retryIntervalMs), e);
    }
  }

  /** Sweeps at these times, sending at once. */
  function Sweeps(times: seq<nat>): (events: seq<Event>)
    ensures |events| == |times| && forall i :: 0 <= i < |times| ==> events[i] == Timeouts(times[i], times[i])
  {
    seq(|times|, i requires 0 <= i < |times| => Timeouts(times[i], times[i]))
  }

  function Latest(start: nat, times: seq<nat>): (t: nat) {
    if times == [] then start else times[|times| - 1]
  }

  /** The first comes `gap` or more after the start, and each `gap` or more after the one before. */
  predicate Apart(start: nat, times: seq<nat>, gap: nat) {
    times == [] || (Apart(start, times[..|times| - 1], gap) && times[|times| - 1] >= Latest(start, times[..|times| - 1]) + gap)
  }

  lemma {:induction false} AllLate(times: seq<nat>, start: nat, gapMs: nat)
    requires gapMs > 0 && Apart(start, times, gapMs * 1_000_000)
    ensures Counted(Sweeps(times), start, gapMs) == Count(|times|, Latest(start, times))
    decreases |times|
  {
    if times != [] {
      var front := times[..|times| - 1];
      AllLate(front, start, gapMs);
      assert Sweeps(times)[..|times| - 1] == Sweeps(front);
    }
  }

  /** With the default profile, of sweeps 100 ms or more apart the first three send the packet again and the fourth gives it up. */
  lemma DefaultRetries(events: seq<Event>, k: uint32, data: Datagram, level: Level, t: nat, times: seq<nat>)
    requires Apart(t, times, 100_000_000)
    ensures var all := events + [Add(k, data, DefaultProfile(level), t)] + Sweeps(times);
            SweepResends(all, k) == (if |times| < 3 then |times| else 3) && (k in TableAfter(all) <==> |times| <= 3)
  {
    AllLate(times, t, 100);
    RetriedExactly(events, k, data, DefaultProfile(level), t, Sweeps(times));
  }

  // ---------------------------------------------------------------- draining

  /** What sweeps can still do to one entry. */
  function Chances(p: Pending): (n: nat) {
    1 + if Exhausted(p) then 0 else p.maxRetries - p.retryCount
  }

  function Remaining(m: Table): (n: nat)
    decreases |m|
  {
    if m == map[] then 0
    else
      var k := D.Least(m.Keys);
      Chances(m[k]) + Remaining(m - {k})
  }

  lemma {:induction false} RemainingSplit(m: Table, k: uint32)
    requires k in m
    ensures Remaining(m) == Chances(m[k]) + Remaining(m - {k})
    decreases |m|
  {
    var l := D.Least(m.Keys);
    if l != k {
      RemainingSplit(m - {l}, k);
      RemainingSplit(m - {k}, l);
      assert m - {l} - {k} == m - {k} - {l};
    }
  }

  lemma {:induction false} RemainingMono(a: Table, b: Table)
    requires forall k :: k in a ==> k in b && Chances(a[k]) <= Chances(b[k])
    ensures Remaining(a) <= Remaining(b)
    decreases |a|
  {
    if a != map[] {
      var k :| k in a;
      RemainingSplit(a, k);
      RemainingSplit(b, k);
      RemainingMono(a - {k}, b - {k});
    }
  }

  /** A sweep never adds chances, and takes at least one away when any entry is overdue. */
  lemma SweepDecreases(m: Table, now: nat, sentAt: nat)
    ensures Remaining(Swept(m, now, sentAt)) <= Remaining(m)
    ensures (exists k :: k in m && Overdue(m[k], now)) ==> Remaining(Swept(m, now, sentAt)) < Remaining(m)
  {
    var r := Swept(m, now, sentAt);
    RemainingMono(r, m);
    if k :| k in m && Overdue(m[k], now) {
      RemainingSplit(m, k);
      RemainingMono(r - {k}, m - {k});
      if k in r {
        RemainingSplit(r, k);
      } else {
        assert r - {k} == r;
      }
    }
  }

  /** A sweep and when its retransmissions go out. */
  datatype Moment = Moment(now: nat, sentAt: nat)

  function SweptAt(m: Table, times: seq<Moment>): (r: Table) {
    if times == [] then m else SweptAt(Swept(m, times[0].now, times[0].sentAt), times[1..])
  }

  /** Each sweep comes at least `gapMs` after everything the previous one sent. */
  predicate Spaced(start: nat, times: seq<Moment>, gapMs: nat)
    decreases |times|
  {
    times == [] || (times[0].now >= start + gapMs * NS_PER_MS && times[0].sentAt >= times[0].now &&
                    Spaced(times[0].sentAt, times[1..], gapMs))
  }

  lemma GapIsOverdue(p: Pending, start: nat, now: nat, gapMs: nat)
    requires p.lastSent <= start && p.retryIntervalMs <= gapMs && now >= start + gapMs * NS_PER_MS
    ensures Overdue(p, now)
  {
    assert (now - p.lastSent) / NS_PER_MS >= gapMs * NS_PER_MS / NS_PER_MS;
  }

  /**
    With nothing added, sweeps spaced wider than every retry interval empty the table after at most as
    many sweeps as there are chances left.
  */
  lemma {:induction false} TableDrains(m: Table, start: nat, times: seq<Moment>, gapMs: nat)
    requires forall k :: k in m ==> m[k].lastSent <= start && m[k].retryIntervalMs <= gapMs
    requires Spaced(start, times, gapMs) && |times| >= Remaining(m)
    ensures SweptAt(m, times) == map[]
    decreases |times|
  {
    if m == map[] {
      EmptyStaysEmpty(times);
    } else {
      var k :| k in m;
      RemainingSplit(m, k);
      var t := times[0];
      GapIsOverdue(m[k], start, t.now, gapMs);
      SweepDecreases(m, t.now, t.sentAt);
      TableDrains(Swept(m, t.now, t.sentAt), t.sentAt, times[1..], gapMs);
    }
  }

  lemma {:induction false} EmptyStaysEmpty(times: seq<Moment>)
    ensures SweptAt(map[], times) == map[]
    decreases |times|
  {
    if times != [] {
      assert Swept(map[], times[0].now, times[0].sentAt) == map[];
      EmptyStaysEmpty(times[1..]);
    }
  }
}
