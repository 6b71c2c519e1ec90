/** The sliding duplicate filter of QoSEngine (src/core/qos_engine.h), one per source. */
module DedupWindow {
  import opened Words

  const WINDOW := 1024

  /** The value of a window. */
  datatype Window = Window(hasAny: bool, highWater: uint32, recent: set<uint32>)

  const FRESH := Window(false, 0, {})

  function LowerBound(highWater: uint32): (low: uint32) {
    if highWater >= WINDOW then highWater - WINDOW else 0
  }

  predicate TooOld(w: Window, s: uint32) {
    w.hasAny && s < w.highWater && w.highWater - s >= WINDOW
  }

  predicate Duplicate(w: Window, s: uint32) {
    TooOld(w, s) || (w.hasAny && s in w.recent)
  }

  /** The window after one check. */
  function Marked(w: Window, s: uint32): (r: Window) {
    if !w.hasAny then Window(true, s, w.recent + {s})
    else if Duplicate(w, s) then w
    else
      var hw := if s > w.highWater then s else w.highWater;
      Window(true, hw, set x | x in w.recent + {s} && x >= LowerBound(hw))
  }

  // ---------------------------------------------------------------- in place

  class Filter {
    var hasAny: bool
    var highWater: uint32
    var recent: set<uint32>

    function Value(): (w: Window)
      reads this
    {
      Window(hasAny, highWater, recent)
    }

    constructor ()
      ensures Value() == FRESH
    {
      hasAny, highWater, recent := false, 0, {};
    }

    constructor FromValue(w: Window)
      ensures Value() == w
    {
      hasAny, highWater, recent := w.hasAny, w.highWater, w.recent;
    }

    method CheckAndMark(s: uint32) returns (duplicate: bool)
      modifies this
      ensures duplicate == Duplicate(old(Value()), s)
      ensures Value() == Marked(old(Value()), s)
    {
      if !hasAny {
        hasAny, highWater, recent := true, s, recent + {s};
        return false;
      }
      if s < highWater && highWater - s >= WINDOW { return true; }
      if s in recent { return true; }
      recent := recent + {s};
      if s > highWater { highWater := s; }
      var low := LowerBound(highWater);
      ghost var all := recent;
      while recent != {} && Least(recent) < low
        invariant recent <= all && forall x :: x in all && x >= low ==> x in recent
        invariant hasAny == old(hasAny) && highWater == (if s > old(highWater) then s else old(highWater))
        decreases |recent|
      {
        recent := recent - {Least(recent)};
      }
      return false;
    }
  }

  /** The first key of the ordered map. */
  function Least(s: set<uint32>): (m: uint32)
    requires s != {}
    ensures IsLeast(s, m)
  {
    LeastExists(s);
    LeastUnique(s);
    var m :| IsLeast(s, m);
    m
  }

  predicate IsLeast(s: set<uint32>, m: uint32) {
    m in s && forall x :: x in s ==> m <= x
  }

  lemma LeastUnique(s: set<uint32>)
    ensures forall m, n :: IsLeast(s, m) && IsLeast(s, n) ==> m == n
  {
  }

  lemma {:induction false} LeastExists(s: set<uint32>)
    requires s != {}
    ensures exists m :: IsLeast(s, m)
    decreases |s|
  {
    var y :| y in s;
    var rest := s - {y};
    assert forall x :: x in s ==> x == y || x in rest;
    if rest == {} {
      assert IsLeast(s, y);
    } else {
      LeastExists(rest);
      var m :| IsLeast(rest, m);
      assert IsLeast(s, if y < m then y else m);
    }
  }

  // ---------------------------------------------------------------- whole call sequences

  /** The window after a sequence of checks on a fresh one. */
  function After(calls: seq<uint32>): (w: Window) {
    if calls == [] then FRESH else Marked(After(calls[..|calls| - 1]), calls[|calls| - 1])
  }

  /** The answer to the i-th check. */
  predicate Answer(calls: seq<uint32>, i: nat)
    requires i < |calls|
  {
    Duplicate(After(calls[..i]), calls[i])
  }

  /** The filter lets s through at its first occurrence or never, so membership in `recent` is exact above the lower edge. */
  ghost predicate Remembers(calls: seq<uint32>, w: Window) {
    (w.hasAny <==> calls != []) &&
    (forall x :: x in w.recent ==> x in calls && LowerBound(w.highWater) <= x <= w.highWater) &&
    (forall x :: x in calls && w.highWater < x + WINDOW ==> x in w.recent) &&
    (w.hasAny ==> w.highWater in calls) &&
    (forall x :: x in calls ==> x <= w.highWater) &&
    (calls == [] ==> w == FRESH)
  }

  lemma {:induction false} AfterRemembers(calls: seq<uint32>)
    ensures Remembers(calls, After(calls))
  {
    if calls != [] {
      var before, s := calls[..|calls| - 1], calls[|calls| - 1];
      AfterRemembers(before);
      assert calls == before + [s];
      assert forall x :: x in calls <==> x in before || x == s;
    }
  }

  /**
    The filter refines an unbounded set of seen numbers: above the window's edge it answers exactly
    whether the number occurred before, below it answers "duplicate".
  */
  lemma RefinesSeenSet(calls: seq<uint32>, i: nat)
    requires i < |calls|
    ensures var hw := After(calls[..i]).highWater;
            Answer(calls, i) == (if i == 0 || hw < calls[i] as int + 1024 then calls[i] in calls[..i] else true)
  {
    AfterRemembers(calls[..i]);
  }

  /** No number is let through twice. */
  lemma NeverTwice(calls: seq<uint32>, i: nat, j: nat)
    requires i < j < |calls| && calls[i] == calls[j]
    ensures Answer(calls, j)
  {
    RefinesSeenSet(calls, j);
    assert calls[..j][i] == calls[i];
  }

  /** Memory stays bounded: at most 1025 keys, all in the last 1025 numbers up to the high-water mark. */
  lemma BoundedMemory(calls: seq<uint32>)
    ensures |After(calls).recent| <= 1025
    ensures forall x :: x in After(calls).recent ==> After(calls).highWater - 1024 <= x <= After(calls).highWater
  {
    AfterRemembers(calls);
    var w := After(calls);
    RangeSize(w.recent, LowerBound(w.highWater), w.highWater);
  }

  lemma {:induction false} RangeSize(s: set<uint32>, lo: int, hi: int)
    requires lo <= hi + 1 && forall x :: x in s ==> lo <= x <= hi
    ensures |s| <= hi - lo + 1
    decreases hi - lo + 1
  {
    if lo == hi + 1 {
      assert s == {};
    } else {
      RangeSize(s - {hi}, lo, hi - 1);
    }
  }

  /** A first occurrence is let through exactly when it is not too old. */
  lemma FirstOccurrence(calls: seq<uint32>, s: uint32)
    requires s !in calls
    ensures Duplicate(After(calls), s) <==> TooOld(After(calls), s)
  {
    AfterRemembers(calls);
  }
}
