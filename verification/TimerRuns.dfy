/**
  The timer wheel over whole runs: adds and cancels from any thread (callbacks included) interleaved with
  the tick thread, whose tick() is one locked extraction, then per timer the callback and a locked re-arm.
*/
module TimerRuns {
  import opened Words
  import opened TimerWheel

  /** When and with what delay a timer was registered. intervalMs is 0 for a one-shot timer. */
  datatype Birth = Birth(tick: nat, delayMs: uint32, intervalMs: uint32)

  /**
    rest: extracted timers whose callback has not started. busy: the timer whose callback is running.
    History: births, the ticks at which each callback was started, every id ever cancelled, the ids that
    were already extracted when first cancelled, and how many callbacks started after the cancel.
  */
  datatype Sys = Sys(
    w: Wheel, rest: seq<Timer>, busy: Option<Timer>, running: bool,
    births: map<nat, Birth>, fired: map<nat, seq<nat>>,
    everCancelled: set<nat>, excused: set<nat>, late: map<nat, nat>)

  datatype Step =
    | Register(delayMs: uint32, periodic: bool)
    | Cancel(id: nat)
    | Tick
    | StartCallback
    | FinishCallback
    | Stop
    | Abandon

  predicate Enabled(s: Sys, step: Step) {
    match step
    case Tick => s.rest == [] && s.busy.None?
    case StartCallback => s.rest != [] && s.busy.None? && s.running
    case FinishCallback => s.busy.Some?
    case Abandon => s.busy.None? && !s.running
    case _ => true
  }

  function FiredAt(s: Sys, id: nat): (ticks: seq<nat>) {
    if id in s.fired then s.fired[id] else []
  }

  function LateCount(s: Sys, id: nat): (n: nat) {
    if id in s.late then s.late[id] else 0
  }

  /** addOnce passes interval 0, addPeriodic its delay. */
  function Interval(delayMs: uint32, periodic: bool): (ms: uint32) {
    if periodic then delayMs else 0
  }

  function AfterRegister(s: Sys, delayMs: uint32, intervalMs: uint32): (r: Sys) {
    var id := s.w.nextId;
    s.(w := Added(s.w, id, delayMs, intervalMs).(nextId := id + 1),
       births := s.births[id := Birth(s.w.now, delayMs, intervalMs)])
  }

  function AfterCancel(s: Sys, id: nat): (r: Sys) {
    s.(w := s.w.(cancelled := s.w.cancelled + {id}), everCancelled := s.everCancelled + {id},
       excused := if id !in s.everCancelled && Of(s.rest, id) != [] then s.excused + {id} else s.excused)
  }

  /** The locked extraction. */
  function AfterTick(s: Sys): (r: Sys) {
    s.(w := Ticked(s.w), rest := DueNow(s.w))
  }

  function AfterStart(s: Sys): (r: Sys)
    requires s.rest != []
  {
    var t := s.rest[0];
    s.(rest := s.rest[1..], busy := Some(t), fired := s.fired[t.id := FiredAt(s, t.id) + [s.w.now]],
       late := if t.id in s.everCancelled then s.late[t.id := LateCount(s, t.id) + 1] else s.late)
  }

  /** The callback has returned: the locked re-arm. */
  function AfterFinish(s: Sys): (r: Sys)
    requires s.busy.Some?
  {
    s.(w := Rearmed(s.w, s.busy.value, s.running), busy := None)
  }

  function Apply(s: Sys, step: Step): (r: Sys)
    requires Enabled(s, step)
  {
    match step
    case Register(delayMs, periodic) => AfterRegister(s, delayMs, Interval(delayMs, periodic))
    case Cancel(id) => AfterCancel(s, id)
    case Tick => AfterTick(s)
    case StartCallback => AfterStart(s)
    case FinishCallback => AfterFinish(s)
    case Stop => s.(running := false)
    case Abandon => s.(rest := [])
  }

  predicate Initial(s: Sys) {
    s == Sys(Wheel([], {}, 0, 1), [], None, true, map[], map[], {}, {}, map[])
  }

  // ---------------------------------------------------------------- one timer at a time

  /** The timers of a list with this id. */
  function Of(l: seq<Timer>, id: nat): (r: seq<Timer>) {
    if l == [] then []
    else if Last(l).id == id then Of(DropLast(l), id) + [Last(l)]
    else Of(DropLast(l), id)
  }

  lemma OfSnoc(l: seq<Timer>, t: Timer, id: nat)
    ensures Of(l + [t], id) == if t.id == id then Of(l, id) + [t] else Of(l, id)
  {
    assert DropLast(l + [t]) == l;
  }

  lemma {:induction false} OfCons(t: Timer, l: seq<Timer>, id: nat)
    ensures Of([t] + l, id) == if t.id == id then [t] + Of(l, id) else Of(l, id)
  {
    if l == [] {
      assert [t] + l == [] + [t];
      OfSnoc([], t, id);
    } else {
      assert [t] + l == ([t] + DropLast(l)) + [Last(l)];
      OfCons(t, DropLast(l), id);
      OfSnoc([t] + DropLast(l), Last(l), id);
    }
  }

  /** Extraction commutes with looking at one id. */
  lemma {:induction false} OfExtracted(l: seq<Timer>, id: nat, now: nat)
    ensures Of(Expired(l, now), id) == Expired(Of(l, id), now)
    ensures Of(Kept(l, now), id) == Kept(Of(l, id), now)
  {
    if l != [] {
      OfExtracted(DropLast(l), id, now);
      OfSnoc(Expired(DropLast(l), now), Last(l), id);
      OfSnoc(Kept(DropLast(l), now), Last(l), id);
      ExpiredSnoc(Of(DropLast(l), id), Last(l), now);
    }
  }

  lemma {:induction false} OfUncancelled(l: seq<Timer>, id: nat, cancelled: set<nat>)
    ensures Of(Uncancelled(l, cancelled), id) == if id in cancelled then [] else Of(l, id)
  {
    if l != [] {
      OfUncancelled(DropLast(l), id, cancelled);
      OfSnoc(Uncancelled(DropLast(l), cancelled), Last(l), id);
    }
  }

  lemma {:induction false} IdsOf(l: seq<Timer>, id: nat)
    ensures id in Ids(l) <==> Of(l, id) != []
  {
    if l != [] {
      IdsOf(DropLast(l), id);
      IdsSnoc(DropLast(l), Last(l));
      assert l == DropLast(l) + [Last(l)];
    }
  }

  // ---------------------------------------------------------------- the invariant

  /** Everything the system knows about one id. */
  datatype View = View(
    waiting: seq<Timer>, rest: seq<Timer>, busy: Option<Timer>, now: nat, running: bool,
    birth: Option<Birth>, fired: seq<nat>, cancelled: bool, everCancelled: bool, excused: bool, late: nat)

  function ViewOf(s: Sys, id: nat): (v: View) {
    View(Of(s.w.timers, id), Of(s.rest, id),
         if s.busy.Some? && s.busy.value.id == id then s.busy else None,
         s.w.now, s.running,
         if id in s.births then Some(s.births[id]) else None,
         FiredAt(s, id), id in s.w.cancelled, id in s.everCancelled, id in s.excused, LateCount(s, id))
  }

  /** The k-th tick at which the timer is due. */
  function Due(b: Birth, k: nat): (tick: nat) {
    b.tick + k * Ticks(b.delayMs)
  }

  function DueTicks(b: Birth, k: nat): (ticks: seq<nat>) {
    if k == 0 then [] else DueTicks(b, k - 1) + [Due(b, k)]
  }

  function Instance(b: Birth, id: nat, k: nat): (t: Timer) {
    Timer(id, b.intervalMs, Due(b, k))
  }

  predicate WellBorn(b: Birth) {
    b.intervalMs == 0 || b.intervalMs == b.delayMs
  }

  /** Registered and not due yet. */
  predicate Waiting(v: View, id: nat, b: Birth, k: nat) {
    v.waiting == [Instance(b, id, k + 1)] && v.rest == [] && v.busy.None? &&
    Due(b, k) <= v.now < Due(b, k + 1) && (k == 0 || b.intervalMs > 0)
  }

  /** Taken out by the current tick, callback not started. */
  predicate Extracted(v: View, id: nat, b: Birth, k: nat) {
    v.waiting == [] && v.rest == [Instance(b, id, k + 1)] && v.busy.None? &&
    v.now == Due(b, k + 1) && (k == 0 || b.intervalMs > 0)
  }

  predicate InCallback(v: View, id: nat, b: Birth, k: nat) {
    v.waiting == [] && v.rest == [] && v.busy == Some(Instance(b, id, k)) &&
    v.now == Due(b, k) && 0 < k && (k == 1 || b.intervalMs > 0)
  }

  predicate Finished(v: View, b: Birth, k: nat) {
    v.waiting == [] && v.rest == [] && v.busy.None? && k == 1 && b.intervalMs == 0 && Due(b, 1) <= v.now
  }

  /** An uncancelled timer of a running wheel has fired exactly when due, and is in one of four places. */
  predicate OnSchedule(v: View, id: nat, b: Birth) {
    var k := |v.fired|;
    v.fired == DueTicks(b, k) &&
    (Waiting(v, id, b, k) || Extracted(v, id, b, k) || InCallback(v, id, b, k) || Finished(v, b, k))
  }

  function Instances(v: View): (n: nat) {
    |v.waiting| + |v.rest| + (if v.busy.Some? then 1 else 0)
  }

  /** An id is alive in at most one place, and only after it was handed out. */
  predicate Placed(v: View) {
    Instances(v) <= 1 &&
    (v.birth.Some? ==> WellBorn(v.birth.value)) &&
    (v.birth.None? ==> Instances(v) == 0 && v.fired == [])
  }

  predicate Scheduled(v: View, id: nat) {
    v.birth.Some? && !v.everCancelled && v.running ==> OnSchedule(v, id, v.birth.value)
  }

  /** A cancelled id that is alive or not yet handed out is still in the cancel set, and its late callbacks are counted. */
  predicate CancelOk(v: View) {
    (v.cancelled ==> v.everCancelled) &&
    (v.everCancelled && (Instances(v) > 0 || v.birth.None?) ==> v.cancelled) &&
    (!v.everCancelled ==> v.late == 0 && !v.excused) &&
    (v.everCancelled ==> v.late + |v.rest| <= if v.excused then 1 else 0)
  }

  predicate IdOk(v: View, id: nat) {
    Placed(v) && Scheduled(v, id) && CancelOk(v)
  }

  ghost predicate Inv(s: Sys) {
    0 < s.w.nextId &&
    (forall id: nat :: id in s.births <==> 0 < id < s.w.nextId) &&
    (forall t :: t in s.w.timers ==> t.fireTick > s.w.now) &&
    (forall id: nat :: IdOk(ViewOf(s, id), id))
  }

  // ---------------------------------------------------------------- each step, seen from one id

  function RegisterView(v: View, id: nat, delayMs: uint32, intervalMs: uint32): (r: View) {
    v.(waiting := v.waiting + [Timer(id, intervalMs, v.now + Ticks(delayMs))],
       birth := Some(Birth(v.now, delayMs, intervalMs)))
  }

  function CancelView(v: View): (r: View) {
    v.(cancelled := true, everCancelled := true, excused := v.excused || (!v.everCancelled && v.rest != []))
  }

  predicate FiresIn(one: seq<Timer>, now: nat) {
    one != [] && one[0].fireTick <= now
  }

  function TickView(v: View): (r: View) {
    v.(now := v.now + 1,
       waiting := if FiresIn(v.waiting, v.now + 1) then [] else v.waiting,
       rest := if FiresIn(v.waiting, v.now + 1) && !v.cancelled then v.waiting else [],
       cancelled := v.cancelled && !FiresIn(v.waiting, v.now + 1))
  }

  function StartView(v: View): (r: View)
    requires v.rest != []
  {
    v.(rest := v.rest[1..], busy := Some(v.rest[0]), fired := v.fired + [v.now],
       late := if v.everCancelled then v.late + 1 else v.late)
  }

  function FinishView(v: View): (r: View)
    requires v.busy.Some?
  {
    var t := v.busy.value;
    v.(busy := None,
       waiting := if t.intervalMs > 0 && v.running && !v.cancelled
                  then v.waiting + [Timer(t.id, t.intervalMs, v.now + Ticks(t.intervalMs))] else v.waiting)
  }

  lemma DueStep(b: Birth, k: nat)
    ensures Due(b, k + 1) == Due(b, k) + Ticks(b.delayMs)
    ensures Due(b, 0) == b.tick && Due(b, 1) == b.tick + Ticks(b.delayMs)
  {
  }

  lemma RegisterViewOk(v: View, id: nat, delayMs: uint32, intervalMs: uint32)
    requires IdOk(v, id) && v.birth.None? && (intervalMs == 0 || intervalMs == delayMs)
    ensures IdOk(RegisterView(v, id, delayMs, intervalMs), id)
  {
    var r := RegisterView(v, id, delayMs, intervalMs);
    DueStep(r.birth.value, 0);
    assert r.waiting == [Instance(r.birth.value, id, 1)];
  }

  lemma CancelViewOk(v: View, id: nat)
    requires IdOk(v, id)
    ensures IdOk(CancelView(v), id)
  {
  }

  lemma TickViewOk(v: View, id: nat)
    requires IdOk(v, id) && v.rest == [] && v.busy.None?
    ensures IdOk(TickView(v), id)
  {
  }

  lemma StartViewOk(v: View, id: nat)
    requires IdOk(v, id) && v.rest != []
    ensures IdOk(StartView(v), id)
  {
  }

  lemma FinishViewOk(v: View, id: nat)
    requires IdOk(v, id) && v.busy.Some?
    ensures IdOk(FinishView(v), id)
  {
    if v.birth.Some? && !v.everCancelled && v.running {
      DueStep(v.birth.value, |v.fired|);
    }
  }

  // ---------------------------------------------------------------- the views move as the system does

  lemma SingleTimer(one: seq<Timer>, now: nat)
    requires |one| <= 1
    ensures var due := one != [] && one[0].fireTick <= now;
            Expired(one, now) == (if due then one else []) && Kept(one, now) == (if due then [] else one)
  {
    if one != [] {
      assert one == [] + [one[0]];
      ExpiredSnoc([], one[0], now);
    }
  }

  lemma TickedTimers(w: Wheel, id: nat)
    requires |Of(w.timers, id)| <= 1
    ensures Of(Ticked(w).timers, id) == if FiresIn(Of(w.timers, id), w.now + 1) then [] else Of(w.timers, id)
  {
    assert Of(Kept(w.timers, w.now + 1), id) == Kept(Of(w.timers, id), w.now + 1) by {
      OfExtracted(w.timers, id, w.now + 1);
    }
    SingleTimer(Of(w.timers, id), w.now + 1);
  }

  lemma TickedDue(w: Wheel, id: nat)
    requires |Of(w.timers, id)| <= 1
    ensures Of(DueNow(w), id) ==
            if FiresIn(Of(w.timers, id), w.now + 1) && id !in w.cancelled then Of(w.timers, id) else []
  {
    OfExtracted(w.timers, id, w.now + 1);
    OfUncancelled(Expired(w.timers, w.now + 1), id, w.cancelled);
    SingleTimer(Of(w.timers, id), w.now + 1);
  }

  lemma TickedCancels(w: Wheel, id: nat)
    requires |Of(w.timers, id)| <= 1
    ensures id in Ticked(w).cancelled <==> id in w.cancelled && !FiresIn(Of(w.timers, id), w.now + 1)
  {
    var gone := Expired(w.timers, w.now + 1);
    assert id in Ids(gone) <==> FiresIn(Of(w.timers, id), w.now + 1) by {
      OfExtracted(w.timers, id, w.now + 1);
      IdsOf(gone, id);
      SingleTimer(Of(w.timers, id), w.now + 1);
    }
  }

  lemma TickOne(s: Sys, id: nat)
    requires |Of(s.w.timers, id)| <= 1 && s.rest == []
    ensures ViewOf(AfterTick(s), id) == TickView(ViewOf(s, id))
  {
    TickedTimers(s.w, id);
    TickedDue(s.w, id);
    TickedCancels(s.w, id);
  }

  lemma FrontOf(l: seq<Timer>, id: nat)
    requires l != []
    ensures Of(l, id) == if l[0].id == id then [l[0]] + Of(l[1..], id) else Of(l[1..], id)
  {
    assert l == [l[0]] + l[1..];
    OfCons(l[0], l[1..], id);
  }

  lemma StartSelf(s: Sys, id: nat)
    requires s.rest != [] && s.busy.None? && s.rest[0].id == id
    ensures Of(s.rest, id) != [] && ViewOf(AfterStart(s), id) == StartView(ViewOf(s, id))
  {
    FrontOf(s.rest, id);
  }

  lemma StartOther(s: Sys, id: nat)
    requires s.rest != [] && s.busy.None? && s.rest[0].id != id
    ensures ViewOf(AfterStart(s), id) == ViewOf(s, id)
  {
    FrontOf(s.rest, id);
  }

  lemma StartOne(s: Sys, id: nat)
    requires s.rest != [] && s.busy.None?
    ensures s.rest[0].id != id ==> ViewOf(AfterStart(s), id) == ViewOf(s, id)
    ensures s.rest[0].id == id ==> Of(s.rest, id) != [] && ViewOf(AfterStart(s), id) == StartView(ViewOf(s, id))
  {
    if s.rest[0].id == id { StartSelf(s, id); } else { StartOther(s, id); }
  }

  lemma FinishOne(s: Sys, id: nat)
    requires s.busy.Some?
    ensures ViewOf(AfterFinish(s), id) ==
            if s.busy.value.id == id then FinishView(ViewOf(s, id)) else ViewOf(s, id)
  {
    var t := s.busy.value;
    OfSnoc(s.w.timers, Timer(t.id, t.intervalMs, s.w.now + Ticks(t.intervalMs)), id);
  }

  /** A timer and its registration, added to the system. */
  function WithTimer(s: Sys, t: Timer, b: Birth): (r: Sys) {
    s.(w := s.w.(timers := s.w.timers + [t], nextId := t.id + 1), births := s.births[t.id := b])
  }

  lemma WithTimerView(s: Sys, t: Timer, b: Birth)
    ensures ViewOf(WithTimer(s, t, b), t.id) == ViewOf(s, t.id).(waiting := ViewOf(s, t.id).waiting + [t], birth := Some(b))
  {
    OfSnoc(s.w.timers, t, t.id);
  }

  lemma RegisterIs(s: Sys, delayMs: uint32, intervalMs: uint32)
    ensures AfterRegister(s, delayMs, intervalMs) ==
            WithTimer(s, Timer(s.w.nextId, intervalMs, s.w.now + Ticks(delayMs)), Birth(s.w.now, delayMs, intervalMs))
  {
  }

  lemma RegisterSelf(s: Sys, delayMs: uint32, intervalMs: uint32)
    ensures var id := s.w.nextId;
            ViewOf(AfterRegister(s, delayMs, intervalMs), id) == RegisterView(ViewOf(s, id), id, delayMs, intervalMs)
  {
    RegisterIs(s, delayMs, intervalMs);
    WithTimerView(s, Timer(s.w.nextId, intervalMs, s.w.now + Ticks(delayMs)), Birth(s.w.now, delayMs, intervalMs));
  }

  lemma RegisterOther(s: Sys, delayMs: uint32, intervalMs: uint32, id: nat)
    requires id != s.w.nextId
    ensures ViewOf(AfterRegister(s, delayMs, intervalMs), id) == ViewOf(s, id)
  {
    OfSnoc(s.w.timers, Timer(s.w.nextId, intervalMs, s.w.now + Ticks(delayMs)), id);
  }

  lemma RegisterKeeps(s: Sys, delayMs: uint32, periodic: bool, id: nat)
    requires IdOk(ViewOf(s, id), id) && s.w.nextId !in s.births
    ensures IdOk(ViewOf(AfterRegister(s, delayMs, Interval(delayMs, periodic)), id), id)
  {
    if id == s.w.nextId {
      RegisterSelf(s, delayMs, Interval(delayMs, periodic));
      RegisterViewOk(ViewOf(s, id), id, delayMs, Interval(delayMs, periodic));
    } else {
      RegisterOther(s, delayMs, Interval(delayMs, periodic), id);
    }
  }

  lemma CancelKeeps(s: Sys, c: nat, id: nat)
    requires IdOk(ViewOf(s, id), id)
    ensures IdOk(ViewOf(AfterCancel(s, c), id), id)
  {
    if c == id {
      CancelViewOk(ViewOf(s, id), id);
      assert ViewOf(AfterCancel(s, c), id) == CancelView(ViewOf(s, id));
    } else {
      assert ViewOf(AfterCancel(s, c), id) == ViewOf(s, id);
    }
  }

  lemma TickKeeps(s: Sys, id: nat)
    requires IdOk(ViewOf(s, id), id) && s.rest == [] && s.busy.None?
    ensures IdOk(ViewOf(AfterTick(s), id), id)
  {
    TickOne(s, id);
    TickViewOk(ViewOf(s, id), id);
  }

  lemma StartKeeps(s: Sys, id: nat)
    requires IdOk(ViewOf(s, id), id) && s.rest != [] && s.busy.None?
    ensures IdOk(ViewOf(AfterStart(s), id), id)
  {
    StartOne(s, id);
    if s.rest[0].id == id { StartViewOk(ViewOf(s, id), id); }
  }

  lemma FinishKeeps(s: Sys, id: nat)
    requires IdOk(ViewOf(s, id), id) && s.busy.Some?
    ensures IdOk(ViewOf(AfterFinish(s), id), id)
  {
    FinishOne(s, id);
    if s.busy.value.id == id { FinishViewOk(ViewOf(s, id), id); }
  }

  lemma StopKeeps(s: Sys, id: nat)
    requires IdOk(ViewOf(s, id), id)
    ensures IdOk(ViewOf(s.(running := false), id), id)
    ensures !s.running ==> IdOk(ViewOf(s.(rest := []), id), id)
  {
  }

  lemma StepKeepsId(s: Sys, step: Step, id: nat)
    requires Enabled(s, step) && IdOk(ViewOf(s, id), id) && s.w.nextId !in s.births
    ensures IdOk(ViewOf(Apply(s, step), id), id)
  {
    match step
    case Register(delayMs, periodic) => RegisterKeeps(s, delayMs, periodic, id);
    case Cancel(c) => CancelKeeps(s, c, id);
    case Tick => TickKeeps(s, id);
    case StartCallback => StartKeeps(s, id);
    case FinishCallback => FinishKeeps(s, id);
    case Stop => StopKeeps(s, id);
    case Abandon => StopKeeps(s, id);
  }

  lemma StepKeepsInv(s: Sys, step: Step)
    requires Inv(s) && Enabled(s, step)
    ensures Inv(Apply(s, step))
  {
    forall id: nat
      ensures IdOk(ViewOf(Apply(s, step), id), id)
    {
      StepKeepsId(s, step, id);
    }
    Members(s.w.timers, s.w.now + 1, 0);
  }

  // ---------------------------------------------------------------- whole runs

  predicate Runs(s: Sys, steps: seq<Step>)
    decreases |steps|
  {
    steps == [] || (Enabled(s, steps[0]) && Runs(Apply(s, steps[0]), steps[1..]))
  }

  function Final(s: Sys, steps: seq<Step>): (r: Sys)
    requires Runs(s, steps)
    decreases |steps|
  {
    if steps == [] then s else Final(Apply(s, steps[0]), steps[1..])
  }

  lemma {:induction false} RunKeepsInv(s: Sys, steps: seq<Step>)
    requires Inv(s) && Runs(s, steps)
    ensures Inv(Final(s, steps))
    decreases |steps|
  {
    if steps != [] {
      StepKeepsInv(s, steps[0]);
      RunKeepsInv(Apply(s, steps[0]), steps[1..]);
    }
  }

  lemma InitialInv(s: Sys)
    requires Initial(s)
    ensures Inv(s)
  {
    forall id: nat
      ensures IdOk(ViewOf(s, id), id)
    {
      assert Of([], id) == [];
    }
  }

  /** Between ticks a timer has had exactly the callbacks that were due: none early, none late, none lost. */
  predicate FiredWhenDue(s: Sys, id: nat)
    requires id in s.births
  {
    var b, k := s.births[id], |FiredAt(s, id)|;
    FiredAt(s, id) == DueTicks(b, k) && Due(b, k) <= s.w.now &&
    if b.intervalMs > 0 then s.w.now < Due(b, k + 1)
    else k == if Due(b, 1) <= s.w.now then 1 else 0
  }

  /**
    Whatever is added and cancelled around it, from callbacks too: whenever the tick thread is between two
    ticks, a timer nobody cancelled has fired at registration + d, + 2d, ... up to now (only at + d when it
    is one-shot), d being its delay in ticks.
  */
  lemma FiresExactlyWhenDue(s: Sys, steps: seq<Step>, id: nat)
    requires Initial(s) && Runs(s, steps)
    requires var t := Final(s, steps);
             id in t.births && id !in t.everCancelled && t.running && t.rest == [] && t.busy.None?
    ensures FiredWhenDue(Final(s, steps), id)
  {
    InitialInv(s);
    RunKeepsInv(s, steps);
    var t := Final(s, steps);
    assert IdOk(ViewOf(t, id), id);
    assert Of([], id) == [];
    DueStep(t.births[id], 0);
  }

  lemma {:induction false} BirthStays(s: Sys, steps: seq<Step>, id: nat)
    requires Inv(s) && Runs(s, steps) && id in s.births
    ensures id in Final(s, steps).births && Final(s, steps).births[id] == s.births[id]
    decreases |steps|
  {
    if steps != [] {
      StepKeepsInv(s, steps[0]);
      BirthStays(Apply(s, steps[0]), steps[1..], id);
    }
  }

  lemma {:induction false} RunsOn(s: Sys, a: seq<Step>, b: seq<Step>)
    requires Runs(s, a + b)
    ensures Runs(s, a) && Runs(Final(s, a), b) && Final(s, a + b) == Final(Final(s, a), b)
    decreases |a|
  {
    if a == [] {
      assert a + b == b;
    } else {
      assert (a + b)[1..] == a[1..] + b;
      RunsOn(Apply(s, a[0]), a[1..], b);
    }
  }

  /** When a timer registered at tick `start` with a delay of d ticks has fired by `now`. */
  predicate FiredAsAsked(ticks: seq<nat>, start: nat, d: nat, repeats: bool, now: nat) {
    (forall i :: 0 <= i < |ticks| ==> ticks[i] == start + (i + 1) * d) &&
    if repeats then start + |ticks| * d <= now < start + (|ticks| + 1) * d
    else |ticks| == if start + d <= now then 1 else 0
  }

  /**
    From the call that registered it: whatever comes before and after, an uncancelled one-shot timer fires once, max(1,
    ceil(delay / 10)) ticks after the call, and a periodic one every so many ticks; one with period 0 fires once.
  */
  lemma FiresAsAsked(s: Sys, before: seq<Step>, delayMs: uint32, periodic: bool, after: seq<Step>)
    requires Initial(s) && Runs(s, before + ([Register(delayMs, periodic)] + after)) && delayMs <= WORD - TICK_MS
    requires Runs(s, before)
    requires var id, t := Final(s, before).w.nextId, Final(s, before + ([Register(delayMs, periodic)] + after));
             id !in t.everCancelled && t.running && t.rest == [] && t.busy.None?
    ensures var was, t := Final(s, before), Final(s, before + ([Register(delayMs, periodic)] + after));
            FiredAsAsked(FiredAt(t, was.w.nextId), was.w.now, CeilTicks(delayMs), periodic && delayMs > 0, t.w.now)
  {
    var step, all := Register(delayMs, periodic), before + ([Register(delayMs, periodic)] + after);
    var was := Final(s, before);
    var id := was.w.nextId;
    InitialInv(s);
    RunsOn(s, before, [step] + after);
    RunKeepsInv(s, before);
    assert ([step] + after)[1..] == after;
    StepKeepsInv(was, step);
    BirthStays(Apply(was, step), after, id);
    FiresExactlyWhenDue(s, all, id);
    AsAsked(Final(s, all), id, was.w.now, delayMs, periodic);
  }

  lemma AsAsked(t: Sys, id: nat, start: nat, delayMs: uint32, periodic: bool)
    requires id in t.births && t.births[id] == Birth(start, delayMs, if periodic then delayMs else 0) && FiredWhenDue(t, id)
    requires delayMs <= WORD - TICK_MS
    ensures FiredAsAsked(FiredAt(t, id), start, CeilTicks(delayMs), periodic && delayMs > 0, t.w.now)
  {
    var b := t.births[id];
    TicksExact(delayMs);
    forall i | 0 <= i < |FiredAt(t, id)|
      ensures FiredAt(t, id)[i] == start + (i + 1) * CeilTicks(delayMs)
    {
      FiringTimes(b, |FiredAt(t, id)|, i);
    }
  }

  /** The k callbacks of a timer with representable delay d ms come at registration + i * max(1, ceil(d / 10)) ticks. */
  lemma {:induction false} FiringTimes(b: Birth, k: nat, i: nat)
    requires i < k && b.delayMs <= WORD - TICK_MS
    ensures |DueTicks(b, k)| == k && DueTicks(b, k)[i] == b.tick + (i + 1) * CeilTicks(b.delayMs)
    decreases k
  {
    TicksExact(b.delayMs);
    if i < k - 1 {
      FiringTimes(b, k - 1, i);
    } else {
      DueTicksLength(b, k - 1);
    }
  }

  lemma {:induction false} DueTicksLength(b: Birth, k: nat)
    ensures |DueTicks(b, k)| == k
    decreases k
  {
    if k > 0 { DueTicksLength(b, k - 1); }
  }

  /**
    Cancellation, over all interleavings: after cancel(id) no callback of id starts, except at most one if
    the current tick had already extracted it.
  */
  lemma CancelStopsCallbacks(s: Sys, steps: seq<Step>, id: nat)
    requires Initial(s) && Runs(s, steps)
    ensures LateCount(Final(s, steps), id) <= if id in Final(s, steps).excused then 1 else 0
  {
    InitialInv(s);
    RunKeepsInv(s, steps);
    assert IdOk(ViewOf(Final(s, steps), id), id);
  }

  /** Once the wheel has been stopped no callback starts, and what had not started is given up. */
  lemma {:induction false} StopStopsCallbacks(s: Sys, steps: seq<Step>)
    requires Runs(s, steps) && !s.running
    ensures !Final(s, steps).running && Final(s, steps).fired == s.fired
    decreases |steps|
  {
    if steps != [] { StopStopsCallbacks(Apply(s, steps[0]), steps[1..]); }
  }

  /** No step puts a cancelled timer back into the wheel. */
  lemma CancelledNeverRearmed(s: Sys, step: Step, id: nat)
    requires Inv(s) && Enabled(s, step) && id in s.births && id in s.everCancelled
    ensures |Of(Apply(s, step).w.timers, id)| <= |Of(s.w.timers, id)|
  {
    assert IdOk(ViewOf(s, id), id);
    match step
    case Register(delayMs, periodic) => RegisterOther(s, delayMs, Interval(delayMs, periodic), id);
    case Tick => TickedTimers(s.w, id);
    case FinishCallback => FinishOne(s, id);
    case _ =>
  }
}
