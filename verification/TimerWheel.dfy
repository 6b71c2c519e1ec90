/**
  The single-level timer wheel of src/util/timer_wheel.h. The specification is a plain list of timers in
  the order they were registered; the wheel keeps them in 512 buckets and looks at one per tick.
*/
module TimerWheel {
  import opened Words

  const SLOT_COUNT := 512
  const TICK_MS := 10

  datatype Timer = Timer(id: nat, intervalMs: uint32, fireTick: nat)

  /** Delay in ticks, with the 32-bit addition the code performs. */
  function Ticks(delayMs: uint32): (t: nat)
    ensures t >= 1
  {
    var t := Wrap(delayMs + TICK_MS - 1) / TICK_MS;
    if t > 1 then t else 1
  }

  /** max(1, ceil(delay / 10)), the delay in ticks the caller expects. */
  function CeilTicks(delayMs: uint32): (t: nat) {
    if delayMs <= TICK_MS then 1 else (delayMs - 1) / TICK_MS + 1
  }

  /** The tick count is the rounded-up delay exactly up to 2^32 - 10 ms; longer delays wrap to one tick. */
  lemma TicksExact(delayMs: uint32)
    ensures Ticks(delayMs) == CeilTicks(delayMs) <==> delayMs <= WORD - TICK_MS
    ensures delayMs > WORD - TICK_MS ==> Ticks(delayMs) == 1
  {
    var sum := delayMs + TICK_MS - 1;
    if sum >= WORD {
      assert Wrap(sum) == sum - WORD < TICK_MS;
    }
  }

  /** In milliseconds: ticks of 10 ms that together cover the delay, and not one more than that takes. */
  lemma TicksCover(delayMs: uint32)
    requires delayMs <= 4_294_967_286
    ensures Ticks(delayMs) * 10 >= delayMs && (Ticks(delayMs) > 1 ==> (Ticks(delayMs) - 1) * 10 < delayMs)
  {
  }

  // ---------------------------------------------------------------- the plain timer list

  datatype Wheel = Wheel(timers: seq<Timer>, cancelled: set<nat>, now: nat, nextId: nat)

  function DropLast<T>(s: seq<T>): (r: seq<T>)
    requires s != []
  {
    s[..|s| - 1]
  }

  function Last<T>(s: seq<T>): (r: T)
    requires s != []
  {
    s[|s| - 1]
  }

  /** The timers whose time has come by tick `now`, cancelled or not. */
  function Expired(l: seq<Timer>, now: nat): (r: seq<Timer>) {
    if l == [] then []
    else if Last(l).fireTick <= now then Expired(DropLast(l), now) + [Last(l)]
    else Expired(DropLast(l), now)
  }

  function Kept(l: seq<Timer>, now: nat): (r: seq<Timer>) {
    if l == [] then []
    else if Last(l).fireTick <= now then Kept(DropLast(l), now)
    else Kept(DropLast(l), now) + [Last(l)]
  }

  function Uncancelled(l: seq<Timer>, cancelled: set<nat>): (r: seq<Timer>) {
    if l == [] then []
    else if Last(l).id in cancelled then Uncancelled(DropLast(l), cancelled)
    else Uncancelled(DropLast(l), cancelled) + [Last(l)]
  }

  function Ids(l: seq<Timer>): (r: set<nat>) {
    set t | t in l :: t.id
  }

  predicate DistinctIds(l: seq<Timer>) {
    forall i, j :: 0 <= i < j < |l| ==> l[i].id != l[j].id
  }

  function Added(w: Wheel, id: nat, delayMs: uint32, intervalMs: uint32): (r: Wheel) {
    w.(timers := w.timers + [Timer(id, intervalMs, w.now + Ticks(delayMs))])
  }

  /** One tick of the plain list: everything due is taken out; cancelled ones are dropped and forgotten. */
  function Ticked(w: Wheel): (r: Wheel) {
    var now := w.now + 1;
    w.(now := now, timers := Kept(w.timers, now), cancelled := w.cancelled - Ids(Expired(w.timers, now)))
  }

  function DueNow(w: Wheel): (r: seq<Timer>) {
    Uncancelled(Expired(w.timers, w.now + 1), w.cancelled)
  }

  function Rearmed(w: Wheel, t: Timer, running: bool): (r: Wheel) {
    if t.intervalMs > 0 && running && t.id !in w.cancelled then Added(w, t.id, t.intervalMs, t.intervalMs) else w
  }

  // ---------------------------------------------------------------- buckets

  function Bucket(l: seq<Timer>, k: nat): (r: seq<Timer>) {
    if l == [] then []
    else if Last(l).fireTick % SLOT_COUNT == k then Bucket(DropLast(l), k) + [Last(l)]
    else Bucket(DropLast(l), k)
  }

  /** The buckets hold the list, each timer in the bucket its fire tick names. */
  ghost predicate Holds(buckets: seq<seq<Timer>>, l: seq<Timer>) {
    |buckets| == SLOT_COUNT && forall k: nat :: k < SLOT_COUNT ==> buckets[k] == Bucket(l, k)
  }

  lemma BucketSnoc(l: seq<Timer>, t: Timer, k: nat)
    ensures Bucket(l + [t], k) == if t.fireTick % SLOT_COUNT == k then Bucket(l, k) + [t] else Bucket(l, k)
  {
    assert DropLast(l + [t]) == l;
  }

  lemma ExpiredSnoc(l: seq<Timer>, t: Timer, now: nat)
    ensures Expired(l + [t], now) == if t.fireTick <= now then Expired(l, now) + [t] else Expired(l, now)
    ensures Kept(l + [t], now) == if t.fireTick <= now then Kept(l, now) else Kept(l, now) + [t]
  {
    assert DropLast(l + [t]) == l;
  }

  lemma UncancelledSnoc(l: seq<Timer>, t: Timer, cancelled: set<nat>)
    ensures Uncancelled(l + [t], cancelled) == if t.id in cancelled then Uncancelled(l, cancelled) else Uncancelled(l, cancelled) + [t]
  {
    assert DropLast(l + [t]) == l;
  }

  /** When nothing is overdue, all that is due at `now` is in one bucket. */
  lemma {:induction false} DueIsInBucket(l: seq<Timer>, now: nat)
    requires forall t :: t in l ==> t.fireTick >= now
    ensures Expired(Bucket(l, now % SLOT_COUNT), now) == Expired(l, now)
  {
    if l != [] {
      assert Last(l) in l;
      DueIsInBucket(DropLast(l), now);
      ExpiredSnoc(Bucket(DropLast(l), now % SLOT_COUNT), Last(l), now);
    }
  }

  /** Taking out what is due changes that bucket alone. */
  lemma {:induction false} KeptBucket(l: seq<Timer>, now: nat, k: nat)
    requires forall t :: t in l ==> t.fireTick >= now
    ensures Bucket(Kept(l, now), k) == if k == now % SLOT_COUNT then Kept(Bucket(l, k), now) else Bucket(l, k)
  {
    if l != [] {
      var t := Last(l);
      assert t in l;
      KeptBucket(DropLast(l), now, k);
      BucketSnoc(Kept(DropLast(l), now), t, k);
      ExpiredSnoc(Bucket(DropLast(l), k), t, now);
    }
  }

  lemma {:induction false} Members(l: seq<Timer>, now: nat, k: nat)
    ensures forall t :: t in Kept(l, now) <==> t in l && t.fireTick > now
    ensures forall t :: t in Expired(l, now) <==> t in l && t.fireTick <= now
    ensures forall t :: t in Bucket(l, k) <==> t in l && t.fireTick % SLOT_COUNT == k
  {
    if l != [] {
      Members(DropLast(l), now, k);
      assert l == DropLast(l) + [Last(l)];
    }
  }

  /** Sublists of a list without repeated ids have none either. */
  lemma {:induction false} SublistsDistinct(l: seq<Timer>, now: nat, k: nat)
    requires DistinctIds(l)
    ensures DistinctIds(Kept(l, now)) && DistinctIds(Expired(l, now)) && DistinctIds(Bucket(l, k))
  {
    if l != [] {
      var m := DropLast(l);
      SublistsDistinct(m, now, k);
      Members(m, now, k);
      forall t | t in m
        ensures t.id != Last(l).id
      {
        var i :| 0 <= i < |m| && m[i] == t;
      }
      SnocDistinct(Kept(m, now), Last(l));
      SnocDistinct(Expired(m, now), Last(l));
      SnocDistinct(Bucket(m, k), Last(l));
    }
  }

  lemma IdsSnoc(l: seq<Timer>, t: Timer)
    ensures Ids(l + [t]) == Ids(l) + {t.id}
  {
    assert forall u :: u in l + [t] <==> u in l || u == t;
  }

  /** Taking what is due out of one bucket takes it out of the whole list. */
  lemma TickBuckets(buckets: seq<seq<Timer>>, l: seq<Timer>, now: nat)
    requires Holds(buckets, l) && DistinctIds(l) && forall t :: t in l ==> t.fireTick >= now
    ensures var slot := now % SLOT_COUNT;
            DistinctIds(buckets[slot]) && Expired(buckets[slot], now) == Expired(l, now) &&
            Holds(buckets[slot := Kept(buckets[slot], now)], Kept(l, now))
    ensures DistinctIds(Kept(l, now)) && forall t :: t in Kept(l, now) ==> t in l && t.fireTick > now
  {
    SublistsDistinct(l, now, now % SLOT_COUNT);
    DueIsInBucket(l, now);
    Members(l, now, 0);
    forall k: nat | k < SLOT_COUNT
      ensures Bucket(Kept(l, now), k) == if k == now % SLOT_COUNT then Kept(Bucket(l, k), now) else Bucket(l, k)
    {
      KeptBucket(l, now, k);
    }
  }

  /** The buckets hold the plain wheel w. */
  ghost predicate Represents(buckets: seq<seq<Timer>>, w: Wheel) {
    |buckets| == SLOT_COUNT && Holds(buckets, w.timers) &&
    (forall t :: t in w.timers ==> t.fireTick > w.now && t.id < w.nextId) && DistinctIds(w.timers)
  }

  /** What is due in one bucket is what is due in the wheel. */
  lemma TickTakes(buckets: seq<seq<Timer>>, w: Wheel, slot: nat)
    requires Represents(buckets, w) && slot == (w.now + 1) % SLOT_COUNT
    ensures DistinctIds(buckets[slot]) && Expired(buckets[slot], w.now + 1) == Expired(w.timers, w.now + 1)
  {
    TickBuckets(buckets, w.timers, w.now + 1);
  }

  /** And what stays in the buckets is what stays in the wheel. */
  lemma TickKeeps(buckets: seq<seq<Timer>>, w: Wheel, slot: nat)
    requires Represents(buckets, w) && slot == (w.now + 1) % SLOT_COUNT
    ensures Represents(buckets[slot := Kept(buckets[slot], w.now + 1)], Ticked(w))
  {
    TickBuckets(buckets, w.timers, w.now + 1);
    assert Ticked(w).timers == Kept(w.timers, w.now + 1) && Ticked(w).now == w.now + 1;
  }

  lemma AddToBucket(buckets: seq<seq<Timer>>, l: seq<Timer>, t: Timer)
    requires Holds(buckets, l)
    ensures var slot := t.fireTick % SLOT_COUNT;
            Holds(buckets[slot := buckets[slot] + [t]], l + [t])
  {
    forall k: nat | k < SLOT_COUNT
      ensures Bucket(l + [t], k) == if t.fireTick % SLOT_COUNT == k then Bucket(l, k) + [t] else Bucket(l, k)
    {
      BucketSnoc(l, t, k);
    }
  }

  lemma SnocDistinct(l: seq<Timer>, t: Timer)
    requires DistinctIds(l) && forall u :: u in l ==> u.id != t.id
    ensures DistinctIds(l + [t])
  {
    forall i, j | 0 <= i < j < |l + [t]|
      ensures (l + [t])[i].id != (l + [t])[j].id
    {
      if j == |l| { assert l[i] in l; }
    }
  }

  lemma AddKeeps(buckets: seq<seq<Timer>>, w: Wheel, t: Timer, slot: nat)
    requires Represents(buckets, w) && slot == t.fireTick % SLOT_COUNT && t.fireTick > w.now && t.id < w.nextId
    requires forall u :: u in w.timers ==> u.id != t.id
    ensures Represents(buckets[slot := buckets[slot] + [t]], w.(timers := w.timers + [t]))
  {
    AddToBucket(buckets, w.timers, t);
    SnocDistinct(w.timers, t);
  }

  // ---------------------------------------------------------------- in place

  class TimerSet {
    const slots: array<seq<Timer>>
    var cancelSet: set<nat>
    var curTick: nat
    var nextId: nat
    /** The same timers in registration order. */
    ghost var all: seq<Timer>

    ghost predicate Valid()
      reads this, slots
    {
      slots.Length == SLOT_COUNT && Represents(slots[..], Wheel(all, cancelSet, curTick, nextId))
    }

    ghost function Value(): (w: Wheel)
      reads this
    {
      Wheel(all, cancelSet, curTick, nextId)
    }

    constructor ()
      ensures Valid() && fresh(slots) && Value() == Wheel([], {}, 0, 1)
    {
      slots := new seq<Timer>[SLOT_COUNT](_ => []);
      cancelSet, curTick, nextId, all := {}, 0, 1, [];
    }

    method AddTimerLocked(id: nat, delayMs: uint32, intervalMs: uint32)
      requires Valid() && id < nextId && forall t :: t in all ==> t.id != id
      modifies `all, slots
      ensures Valid() && Value() == Added(old(Value()), id, delayMs, intervalMs)
    {
      var fireTick := curTick + Ticks(delayMs);
      var t := Timer(id, intervalMs, fireTick);
      var slot := fireTick % SLOT_COUNT;
      ghost var buckets := slots[..];
      AddKeeps(buckets, Value(), t, slot);
      slots[slot] := slots[slot] + [t];
      all := all + [t];
      assert slots[..] == buckets[slot := buckets[slot] + [t]];
    }

    method AddTimer(delayMs: uint32, intervalMs: uint32) returns (id: nat)
      requires Valid()
      modifies this, slots
      ensures Valid() && id == old(nextId)
      ensures Value() == Added(old(Value()), id, delayMs, intervalMs).(nextId := id + 1)
    {
      id := nextId;
      nextId := nextId + 1;
      AddTimerLocked(id, delayMs, intervalMs);
    }

    method Cancel(id: nat)
      requires Valid()
      modifies `cancelSet
      ensures Valid() && Value() == old(Value()).(cancelled := old(cancelSet) + {id})
    {
      cancelSet := cancelSet + {id};
    }

    /** The locked part of tick(): looks at one bucket, takes out what the plain list would. */
    method Advance() returns (due: seq<Timer>)
      requires Valid()
      modifies this, slots
      ensures Valid() && due == DueNow(old(Value())) && Value() == Ticked(old(Value()))
    {
      ghost var w, buckets := Value(), slots[..];
      curTick := curTick + 1;
      var slot := curTick % SLOT_COUNT;
      TickTakes(buckets, w, slot);
      TickKeeps(buckets, w, slot);
      var kept, left;
      due, kept, left := ScanBucket(slots[slot], curTick, cancelSet);
      cancelSet := left;
      slots[slot] := kept;
      all := Ticked(w).timers;
      assert slots[..] == buckets[slot := kept];
    }

    /** After the callback of t: a periodic timer goes back in, unless it was cancelled or the wheel stopped. */
    method Rearm(t: Timer, running: bool)
      requires Valid() && t.id < nextId && forall u :: u in all ==> u.id != t.id
      modifies `all, slots
      ensures Valid() && Value() == Rearmed(old(Value()), t, running)
    {
      if t.intervalMs > 0 && running {
        if t.id !in cancelSet {
          AddTimerLocked(t.id, t.intervalMs, t.intervalMs);
        }
      }
    }
  }

  /** One pass over a bucket: due timers, timers that stay, and the cancellations not yet used up. */
  method ScanBucket(bucket: seq<Timer>, now: nat, cancelSet: set<nat>)
      returns (due: seq<Timer>, kept: seq<Timer>, left: set<nat>)
    requires DistinctIds(bucket)
    ensures due == Uncancelled(Expired(bucket, now), cancelSet) && kept == Kept(bucket, now)
    ensures left == cancelSet - Ids(Expired(bucket, now))
  {
    due, kept, left := [], [], cancelSet;
    for i := 0 to |bucket|
      invariant Found(due, kept, left) == Scanned(bucket, i, now, cancelSet)
    {
      var t := bucket[i];
      ScanStep(bucket, i, now, cancelSet);
      if t.fireTick <= now {
        if t.id in left {
          left := left - {t.id};
        } else {
          due := due + [t];
        }
      } else {
        kept := kept + [t];
      }
    }
    assert bucket[..|bucket|] == bucket;
  }

  /** What a scan of the first i timers has found: due, kept, cancellations left. */
  datatype Found = Found(due: seq<Timer>, kept: seq<Timer>, left: set<nat>)

  function Scanned(bucket: seq<Timer>, i: nat, now: nat, cancelSet: set<nat>): (f: Found)
    requires i <= |bucket|
  {
    Found(Uncancelled(Expired(bucket[..i], now), cancelSet), Kept(bucket[..i], now), cancelSet - Ids(Expired(bucket[..i], now)))
  }

  lemma ScanStep(bucket: seq<Timer>, i: nat, now: nat, cancelSet: set<nat>)
    requires DistinctIds(bucket) && i < |bucket|
    ensures var t, f := bucket[i], Scanned(bucket, i, now, cancelSet);
            Scanned(bucket, i + 1, now, cancelSet) ==
              if t.fireTick > now then f.(kept := f.kept + [t])
              else if t.id in f.left then f.(left := f.left - {t.id})
              else f.(due := f.due + [t])
  {
    var t := bucket[i];
    assert bucket[..i + 1] == bucket[..i] + [t];
    ExpiredSnoc(bucket[..i], t, now);
    UncancelledSnoc(Expired(bucket[..i], now), t, cancelSet);
    IdsSnoc(Expired(bucket[..i], now), t);
    NotSeen(bucket, i, now);
  }

  lemma NotSeen(bucket: seq<Timer>, i: nat, now: nat)
    requires DistinctIds(bucket) && i < |bucket|
    ensures bucket[i].id !in Ids(Expired(bucket[..i], now))
  {
    Members(bucket[..i], now, 0);
  }

  /** Looking at one bucket in 512 takes out exactly the uncancelled timers whose fire tick is now. */
  lemma DueExactly(w: Wheel)
    requires forall t :: t in w.timers ==> t.fireTick > w.now
    ensures forall t :: t in DueNow(w) <==> t in w.timers && t.fireTick == w.now + 1 && t.id !in w.cancelled
  {
    Members(w.timers, w.now + 1, 0);
    UncancelledMembers(Expired(w.timers, w.now + 1), w.cancelled);
  }

  lemma {:induction false} UncancelledMembers(l: seq<Timer>, cancelled: set<nat>)
    ensures forall t :: t in Uncancelled(l, cancelled) <==> t in l && t.id !in cancelled
  {
    if l != [] {
      UncancelledMembers(DropLast(l), cancelled);
      assert l == DropLast(l) + [Last(l)];
    }
  }
}
