/**
  Message framing over a TCP byte stream (src/transport/tcp_transport.cpp): four length bytes, most significant
  first, then the message. A socket takes and gives bytes in portions of any positive size; which ones is
  decided by a plan the code cannot see.
*/
module TcpFraming {
  import opened Words
  import opened Crc32
  import opened ShmCopy

  const MAX_MESSAGE := 10 * 1024 * 1024
  const INT_MAX := 0x7FFF_FFFF

  // ---------------------------------------------------------------- the stream

  /** n in k bytes, most significant first. */
  function Be(n: nat, k: nat): (b: Bytes)
    ensures |b| == k
    decreases n, k
  {
    if k == 0 then [] else Be(n / 0x100, k - 1) + [n % 0x100]
  }

  function FromBe(b: Bytes): (n: nat) {
    if b == [] then 0 else 0x100 * FromBe(b[..|b| - 1]) + b[|b| - 1]
  }

  function Power(k: nat): (p: nat) {
    if k == 0 then 1 else 0x100 * Power(k - 1)
  }

  lemma {:induction false} BeRoundTrip(n: nat, k: nat)
    requires n < Power(k)
    ensures FromBe(Be(n, k)) == n
    decreases k
  {
    if k > 0 { BeRoundTrip(n / 0x100, k - 1); }
  }

  function LengthBytes(n: uint32): (b: Bytes)
    ensures |b| == 4
  {
    Be(n, 4)
  }

  lemma LengthRoundTrip(n: uint32)
    ensures FromBe(LengthBytes(n)) == n
  {
    assert Power(2) == 0x1_0000;
    assert Power(4) == WORD;
    BeRoundTrip(n, 4);
  }

  /** encodeLen. */
  method EncodeLen(n: uint32) returns (b: Bytes)
    ensures b == LengthBytes(n)
  {
    b := [n / 0x100_0000, n / 0x1_0000 % 0x100, n / 0x100 % 0x100, n % 0x100];
    BeFour(n);
  }

  lemma BeFour(n: uint32)
    ensures Be(n, 4) == [n / 0x100_0000, n / 0x1_0000 % 0x100, n / 0x100 % 0x100, n % 0x100]
  {
    var h := n / 0x100;
    var g := h / 0x100;
    var f := g / 0x100;
    assert Be(f, 1) == [f % 0x100] && Be(g, 2) == Be(f, 1) + [g % 0x100] && Be(h, 3) == Be(g, 2) + [h % 0x100];
  }

  /** The length as the receiver puts it together. */
  method DecodeLen(b: Bytes) returns (n: uint32)
    requires |b| == 4
    ensures n == FromBe(b)
  {
    n := Word4(b[3], b[2], b[1], b[0]);
    var a := b[..3];
    assert a[..2] == b[..2] && a[..2][..1] == b[..1];
    assert FromBe(b[..1]) == b[0];
    assert FromBe(b[..2]) == 0x100 * FromBe(b[..1]) + b[1];
    assert FromBe(a) == 0x100 * FromBe(b[..2]) + b[2];
  }

  function Frame(m: Bytes): (f: Bytes)
    ensures |f| == 4 + |m|
  {
    LengthBytes(Wrap(|m|)) + m
  }

  function Stream(ms: seq<Bytes>): (s: Bytes) {
    if ms == [] then [] else Frame(ms[0]) + Stream(ms[1..])
  }

  predicate Deliverable(m: Bytes) {
    1 <= |m| <= MAX_MESSAGE
  }

  /** The message at the start of the stream, if there is a whole one of an admissible length. */
  function First(s: Bytes): (m: Option<Bytes>) {
    if |s| < 4 then None
    else
      var n := FromBe(s[..4]);
      if n == 0 || n > MAX_MESSAGE || |s| < 4 + n then None else Some(s[4..4 + n])
  }

  /** What a receiver makes of a stream. */
  function Received(s: Bytes): (ms: seq<Bytes>)
    decreases |s|
  {
    match First(s)
    case None => []
    case Some(m) => [m] + Received(s[4 + |m|..])
  }

  // ---------------------------------------------------------------- what arrives

  lemma FrameParts(m: Bytes, rest: Bytes)
    ensures var s := Frame(m) + rest;
            s[..4] == LengthBytes(Wrap(|m|)) && s[4..4 + |m|] == m && s[4 + |m|..] == rest
  {
  }

  lemma NextFrame(m: Bytes, rest: Bytes)
    requires Deliverable(m)
    ensures Received(Frame(m) + rest) == [m] + Received(rest)
  {
    FirstOfFrame(m, rest);
    FrameParts(m, rest);
  }

  lemma FirstOfFrame(m: Bytes, rest: Bytes)
    requires |m| < WORD
    ensures First(Frame(m) + rest) == if Deliverable(m) then Some(m) else None
  {
    var prefix := PrefixOf(m);
    FirstPrefixed(Frame(m), prefix, m, rest);
  }

  lemma PrefixOf(m: Bytes) returns (prefix: Bytes)
    requires |m| < WORD
    ensures |prefix| == 4 && FromBe(prefix) == |m| && Frame(m) == prefix + m
  {
    var n := Wrap(|m|);
    WrapSmall(|m|);
    LengthRoundTrip(n);
    prefix := LengthBytes(n);
  }

  lemma WrapSmall(n: nat)
    requires n < WORD
    ensures Wrap(n) == n
  {
  }

  lemma FirstPrefixed(frame: Bytes, prefix: Bytes, m: Bytes, rest: Bytes)
    requires |prefix| == 4 && FromBe(prefix) == |m| && frame == prefix + m
    ensures First(frame + rest) == if Deliverable(m) then Some(m) else None
  {
    var s := frame + rest;
    assert s[..4] == prefix && s[4..4 + |m|] == m;
  }

  lemma BadFrame(m: Bytes, rest: Bytes)
    requires |m| < WORD && !Deliverable(m)
    ensures Received(Frame(m) + rest) == []
  {
    FirstOfFrame(m, rest);
  }

  lemma Regroup<T>(a: seq<T>, b: seq<T>, c: seq<T>)
    ensures (a + b) + c == a + (b + c)
  {
  }

  /** Frames of admissible messages arrive as those messages, in order, whatever follows them. */
  lemma {:induction false} FramesArrive(ms: seq<Bytes>, rest: Bytes)
    requires forall k :: 0 <= k < |ms| ==> Deliverable(ms[k])
    ensures Received(Stream(ms) + rest) == ms + Received(rest)
    decreases |ms|
  {
    if ms == [] {
      assert Stream(ms) + rest == rest;
    } else {
      Regroup(Frame(ms[0]), Stream(ms[1..]), rest);
      NextFrame(ms[0], Stream(ms[1..]) + rest);
      FramesArrive(ms[1..], rest);
      Regroup([ms[0]], ms[1..], Received(rest));
      assert [ms[0]] + ms[1..] == ms;
    }
  }

  /** How many messages precede the first empty or oversized one. */
  function Good(ms: seq<Bytes>): (n: nat)
    ensures n <= |ms|
    ensures forall k :: 0 <= k < n ==> Deliverable(ms[k])
    ensures n < |ms| ==> !Deliverable(ms[n])
  {
    if ms == [] || !Deliverable(ms[0]) then 0
    else
      var n := Good(ms[1..]);
      assert forall k :: 1 <= k < n + 1 ==> ms[k] == ms[1..][k - 1];
      1 + n
  }

  lemma {:induction false} StreamConcat(a: seq<Bytes>, b: seq<Bytes>)
    ensures Stream(a + b) == Stream(a) + Stream(b)
  {
    if a == [] {
      assert a + b == b;
    } else {
      assert (a + b)[1..] == a[1..] + b;
      StreamConcat(a[1..], b);
    }
  }

  lemma StreamOfOne(m: Bytes)
    ensures Stream([m]) == Frame(m)
  {
    var rest := [m][1..];
    assert rest == [];
  }

  /** The receiver delivers exactly the messages before the first empty or oversized one, and none after it. */
  lemma ReceivedExactly(ms: seq<Bytes>)
    requires forall k :: 0 <= k < |ms| ==> |ms[k]| < WORD
    ensures Received(Stream(ms)) == ms[..Good(ms)]
  {
    var n := Good(ms);
    assert ms == ms[..n] + ms[n..];
    StreamConcat(ms[..n], ms[n..]);
    FramesArrive(ms[..n], Stream(ms[n..]));
    if n < |ms| {
      BadFrame(ms[n], Stream(ms[n..][1..]));
    }
  }

  /** So a list of messages arrives as it was sent exactly if each has 1 byte to 10 MiB. */
  lemma DeliveredIff(ms: seq<Bytes>)
    requires forall k :: 0 <= k < |ms| ==> |ms[k]| < WORD
    ensures Received(Stream(ms)) == ms <==> forall k :: 0 <= k < |ms| ==> 1 <= |ms[k]| <= 10_485_760
  {
    ReceivedExactly(ms);
    if Good(ms) < |ms| { assert |ms[..Good(ms)]| < |ms|; }
  }

  lemma CutFrame(m: Bytes, cut: Bytes)
    requires |m| < WORD && cut < Frame(m)
    ensures Received(cut) == []
  {
    LengthRoundTrip(|m|);
    if |cut| >= 4 {
      CutLength(m, cut);
      TooShort(cut, |m|);
    }
  }

  /** A stream that breaks off inside a frame gives what was complete before it. */
  lemma CutStream(ms: seq<Bytes>, cut: Bytes, m: Bytes)
    requires forall k :: 0 <= k < |ms| ==> Deliverable(ms[k])
    requires |m| < WORD && cut < Frame(m)
    ensures Received(Stream(ms) + cut) == ms
  {
    FramesArrive(ms, cut);
    CutFrame(m, cut);
    assert ms + [] == ms;
  }

  // ---------------------------------------------------------------- the sending side

  /** static_cast<int> of a byte count. */
  function CastInt(n: nat): (i: int) {
    if Wrap(n) <= INT_MAX then Wrap(n) else Wrap(n) - WORD
  }

  class OutSocket {
    /** Bytes handed to the kernel so far. */
    var written: Bytes
    /** How many bytes each coming call takes; a number below 1 is a failing call. */
    var plan: seq<int>

    constructor (p: seq<int>)
      ensures written == [] && plan == p
    {
      written, plan := [], p;
    }

    /** Takes at least one byte of `data[..asked]`, or fails. */
    method Send(data: Bytes, asked: int) returns (n: int)
      requires asked <= |data|
      modifies this
      ensures n == Takes(asked, old(plan)) && plan == Rest(old(plan))
      ensures written == if n > 0 then old(written) + data[..n] else old(written)
    {
      n := if asked <= 0 then -1 else asked;
      if plan != [] {
        if plan[0] < n { n := plan[0]; }
        plan := plan[1..];
      }
      if n > 0 { written := written + data[..n]; }
    }
  }

  /** What a call asking for so many bytes takes; it has failed if that is below 1. */
  function Takes(asked: int, plan: seq<int>): (n: int)
    ensures n <= 0 || n <= asked
  {
    var most := if asked <= 0 then -1 else asked;
    if plan != [] && plan[0] < most then plan[0] else most
  }

  function Rest(plan: seq<int>): (rest: seq<int>) {
    if plan == [] then [] else plan[1..]
  }

  /** No call planned fails. */
  predicate Willing(plan: seq<int>) {
    forall k :: 0 <= k < |plan| ==> plan[k] >= 1
  }

  /** A part of the plan is used up: no call of it failed, or only the last one did. */
  predicate Spent(before: seq<int>, after: seq<int>, ok: bool) {
    |after| <= |before| && after == before[|before| - |after|..] &&
    var used := before[..|before| - |after|];
    if ok then Willing(used) else used != [] && Willing(used[..|used| - 1]) && used[|used| - 1] < 1
  }

  lemma SpentNone(plan: seq<int>)
    ensures Spent(plan, plan, true)
  {
  }

  lemma SpentMore(a: seq<int>, b: seq<int>, c: seq<int>, ok: bool)
    requires Spent(a, b, true) && Spent(b, c, ok)
    ensures Spent(a, c, ok)
  {
    var first, second := a[..|a| - |b|], b[..|b| - |c|];
    assert a[..|a| - |c|] == first + second;
    assert a[|a| - |c|..] == b[|b| - |c|..];
    if !ok { assert (first + second)[..|first + second| - 1] == first + second[..|second| - 1]; }
  }

  /** A plan without failing calls never lets a send fail. */
  lemma WillingSucceeds(before: seq<int>, after: seq<int>, ok: bool)
    requires Willing(before) && Spent(before, after, ok)
    ensures ok && Willing(after)
  {
    var n := |before| - |after|;
    assert forall k :: 0 <= k < n ==> before[..n][k] == before[k] >= 1;
    assert forall k :: 0 <= k < |after| ==> after[k] == before[n + k];
  }

  lemma CastAtMost(n: nat)
    ensures CastInt(n) <= n && (0 < n <= INT_MAX ==> CastInt(n) == n)
  {
  }

  /** How many of n bytes go out under a plan, and what is left of the plan. */
  function Gone(n: nat, plan: seq<int>): (k: nat)
    ensures k <= n
    decreases n
  {
    CastAtMost(n);
    var k := Takes(CastInt(n), plan);
    if k <= 0 then 0 else k + Gone(n - k, Rest(plan))
  }

  function Unused(n: nat, plan: seq<int>): (p: seq<int>)
    decreases n
  {
    CastAtMost(n);
    var k := Takes(CastInt(n), plan);
    if n == 0 then plan else if k <= 0 then Rest(plan) else Unused(n - k, Rest(plan))
  }

  /** One call. */
  lemma TakesSpends(n: nat, plan: seq<int>)
    requires 0 < n <= INT_MAX
    ensures Spent(plan, Rest(plan), Takes(CastInt(n), plan) > 0)
  {
    if plan != [] {
      var used := plan[..|plan| - |Rest(plan)|];
      assert used == [plan[0]] && used[..|used| - 1] == [];
    }
  }

  /** All bytes go out exactly if no call that is come to fails. */
  lemma {:induction false} GoneSpends(n: nat, plan: seq<int>)
    requires n <= INT_MAX
    ensures Spent(plan, Unused(n, plan), Gone(n, plan) == n)
    decreases n
  {
    CastAtMost(n);
    SpentNone(plan);
    if n > 0 {
      TakesSpends(n, plan);
      var k := Takes(CastInt(n), plan);
      if k > 0 {
        GoneSpends(n - k, Rest(plan));
        SpentMore(plan, Rest(plan), Unused(n, plan), Gone(n, plan) == n);
      }
    }
  }

  /** Every list of buffers one after the other, until one does not go out whole. */
  function ListGone(bufs: seq<Bytes>, plan: seq<int>): (k: nat)
    ensures k <= |Gathered(bufs)|
  {
    if bufs == [] then 0
    else
      var k := Gone(|bufs[0]|, plan);
      if k < |bufs[0]| then k else k + ListGone(bufs[1..], Unused(|bufs[0]|, plan))
  }

  function ListUnused(bufs: seq<Bytes>, plan: seq<int>): (p: seq<int>) {
    if bufs == [] then plan
    else
      var rest := Unused(|bufs[0]|, plan);
      if Gone(|bufs[0]|, plan) < |bufs[0]| then rest else ListUnused(bufs[1..], rest)
  }

  lemma {:induction false} ListSpends(bufs: seq<Bytes>, plan: seq<int>)
    requires |Gathered(bufs)| <= INT_MAX
    ensures Spent(plan, ListUnused(bufs, plan), ListGone(bufs, plan) == |Gathered(bufs)|)
  {
    SpentNone(plan);
    if bufs != [] {
      GoneSpends(|bufs[0]|, plan);
      if Gone(|bufs[0]|, plan) == |bufs[0]| {
        ListSpends(bufs[1..], Unused(|bufs[0]|, plan));
        SpentMore(plan, Unused(|bufs[0]|, plan), ListUnused(bufs, plan), ListGone(bufs, plan) == |Gathered(bufs)|);
      }
    }
  }

  /** A frame: its prefix, then the message in one buffer or in slices. */
  function FrameGone(bufs: seq<Bytes>, plan: seq<int>): (k: nat)
    ensures k <= 4 + |Gathered(bufs)|
  {
    var k := Gone(4, plan);
    if k < 4 then k else 4 + ListGone(bufs, Unused(4, plan))
  }

  function FrameUnused(bufs: seq<Bytes>, plan: seq<int>): (p: seq<int>) {
    if Gone(4, plan) < 4 then Unused(4, plan) else ListUnused(bufs, Unused(4, plan))
  }

  lemma FrameSpends(bufs: seq<Bytes>, plan: seq<int>)
    requires |Gathered(bufs)| <= INT_MAX
    ensures Spent(plan, FrameUnused(bufs, plan), FrameGone(bufs, plan) == 4 + |Gathered(bufs)|)
  {
    GoneSpends(4, plan);
    if Gone(4, plan) == 4 {
      ListSpends(bufs, Unused(4, plan));
      SpentMore(plan, Unused(4, plan), FrameUnused(bufs, plan), FrameGone(bufs, plan) == 4 + |Gathered(bufs)|);
    }
  }

  /** A frame up to INT_MAX goes out whole if no call planned fails. */
  lemma FrameGoesOut(bufs: seq<Bytes>, plan: seq<int>)
    requires Willing(plan) && |Gathered(bufs)| <= INT_MAX
    ensures FrameGone(bufs, plan) == 4 + |Gathered(bufs)| && Willing(FrameUnused(bufs, plan))
  {
    FrameSpends(bufs, plan);
    WillingSucceeds(plan, FrameUnused(bufs, plan), FrameGone(bufs, plan) == 4 + |Gathered(bufs)|);
  }

  /** Of a longer buffer, below 4 GiB, nothing goes out but the prefix. */
  lemma TooLong(n: nat, plan: seq<int>)
    requires INT_MAX < n < WORD
    ensures Gone(n, plan) == 0
  {
  }

  lemma Portion(before: Bytes, data: Bytes, k: nat, n: nat)
    requires k + n <= |data|
    ensures before + data[..k] + data[k..][..n] == before + data[..k + n]
  {
    Regroup(before, data[..k], data[k..][..n]);
    assert data[..k] + data[k..][..n] == data[..k + n];
  }

  /** Writes what the plan lets out, and succeeds exactly if that is all. */
  method SendAll(s: OutSocket, data: Bytes) returns (ok: bool)
    modifies s
    ensures s.written == old(s.written) + data[..Gone(|data|, old(s.plan))] && s.plan == Unused(|data|, old(s.plan))
    ensures ok <==> Gone(|data|, old(s.plan)) == |data|
  {
    var sent := 0;
    while sent < |data|
      invariant 0 <= sent <= |data| && s.written == old(s.written) + data[..sent]
      invariant Gone(|data|, old(s.plan)) == sent + Gone(|data| - sent, s.plan)
      invariant Unused(|data|, old(s.plan)) == Unused(|data| - sent, s.plan)
      decreases |data| - sent
    {
      CastAtMost(|data| - sent);
      var n := s.Send(data[sent..], CastInt(|data| - sent));
      if n <= 0 { return false; }
      Portion(old(s.written), data, sent, n);
      sent := sent + n;
    }
    return true;
  }

  lemma OneBuffer(data: Bytes)
    ensures Gathered([data]) == data
    ensures forall plan: seq<int> :: ListGone([data], plan) == Gone(|data|, plan) && ListUnused([data], plan) == Unused(|data|, plan)
  {
    assert [data][1..] == [];
    assert data + [] == data;
  }

  /** One frame: prefix, then message. */
  method SendFrame(s: OutSocket, data: Bytes) returns (ok: bool)
    modifies s
    ensures s.written == old(s.written) + Frame(data)[..FrameGone([data], old(s.plan))] && s.plan == FrameUnused([data], old(s.plan))
    ensures ok <==> FrameGone([data], old(s.plan)) == |Frame(data)|
  {
    OneBuffer(data);
    var prefix := EncodeLen(Wrap(|data|));
    ok := SendAll(s, prefix);
    TwoParts(old(s.written), prefix, data, Gone(4, old(s.plan)), Gone(|data|, s.plan));
    if ok { ok := SendAll(s, data); }
  }

  /** What goes out of two buffers, in terms of both together. */
  lemma TwoParts(before: Bytes, a: Bytes, b: Bytes, i: nat, j: nat)
    requires i <= |a| && j <= |b|
    ensures before + a[..i] == before + (a + b)[..i]
    ensures i == |a| ==> before + a[..i] + b[..j] == before + (a + b)[..|a| + j]
  {
    assert a[..i] == (a + b)[..i];
    Regroup(before, a, b[..j]);
    assert a + b[..j] == (a + b)[..|a| + j];
    assert a[..|a|] == a;
  }

  /** The same frame from slices, none of them copied; empty ones are skipped. */
  method SendSlices(s: OutSocket, slices: seq<Bytes>) returns (ok: bool)
    modifies s
    ensures s.written == old(s.written) + Frame(Gathered(slices))[..FrameGone(slices, old(s.plan))]
    ensures s.plan == FrameUnused(slices, old(s.plan))
    ensures ok <==> FrameGone(slices, old(s.plan)) == |Frame(Gathered(slices))|
  {
    var total := TotalLength(slices);
    var prefix := EncodeLen(Wrap(total));
    ok := SendAll(s, prefix);
    TwoParts(old(s.written), prefix, Gathered(slices), Gone(4, old(s.plan)), ListGone(slices, s.plan));
    if ok { ok := SendBodies(s, slices); }
  }

  /** One slice more, after what was written before. */
  lemma NextSlice(before: Bytes, slices: seq<Bytes>, i: nat, k: nat)
    requires i < |slices| && k <= |slices[i]|
    ensures |Gathered(slices[..i])| + k <= |Gathered(slices)|
    ensures before + Gathered(slices[..i]) + slices[i][..k] == before + Gathered(slices)[..|Gathered(slices[..i])| + k]
    ensures |Gathered(slices[..i + 1])| == |Gathered(slices[..i])| + |slices[i]| <= |Gathered(slices)|
    ensures k == |slices[i]| ==> before + Gathered(slices[..i]) + slices[i][..k] == before + Gathered(slices[..i + 1])
  {
    assert slices[..i + 1] == slices[..i] + [slices[i]];
    GatheredSnoc(slices[..i], slices[i]);
    GatheredPrefix(slices, i + 1);
    Regroup(before, Gathered(slices[..i]), slices[i][..k]);
    assert Gathered(slices[..i]) + slices[i][..k] == Gathered(slices[..i + 1])[..|Gathered(slices[..i])| + k];
  }

  method SendBodies(s: OutSocket, slices: seq<Bytes>) returns (ok: bool)
    modifies s
    ensures s.written == old(s.written) + Gathered(slices)[..ListGone(slices, old(s.plan))]
    ensures s.plan == ListUnused(slices, old(s.plan))
    ensures ok <==> ListGone(slices, old(s.plan)) == |Gathered(slices)|
  {
    for i := 0 to |slices|
      invariant s.written == old(s.written) + Gathered(slices[..i])
      invariant ListGone(slices, old(s.plan)) == |Gathered(slices[..i])| + ListGone(slices[i..], s.plan)
      invariant ListUnused(slices, old(s.plan)) == ListUnused(slices[i..], s.plan)
    {
      NextSlice(old(s.written), slices, i, Gone(|slices[i]|, s.plan));
      assert slices[i..][0] == slices[i] && slices[i..][1..] == slices[i + 1..];
      if slices[i] != [] {
        ok := SendAll(s, slices[i]);
        if !ok { return; }
      }
    }
    assert slices[..|slices|] == slices;
    return true;
  }

  // ---------------------------------------------------------------- the receiving side

  class InSocket {
    /** Every byte that will arrive before the connection ends. */
    const stream: Bytes
    var off: nat
    var plan: seq<int>

    ghost predicate Valid()
      reads this
    {
      off <= |stream|
    }

    function Left(): (b: Bytes)
      requires Valid()
      reads this
    {
      stream[off..]
    }

    constructor (s: Bytes, p: seq<int>)
      ensures Valid() && Left() == s
    {
      stream, plan, off := s, p, 0;
    }

    /** At least one byte and at most `asked`; nothing once the stream has ended. */
    method Recv(asked: nat) returns (b: Bytes)
      requires Valid() && asked > 0
      modifies this
      ensures Valid() && |b| <= asked && old(Left()) == b + Left() && (b == [] ==> old(Left()) == [])
    {
      var n := if asked < |stream| - off then asked else |stream| - off;
      if plan != [] {
        if 1 <= plan[0] < n { n := plan[0]; }
        plan := plan[1..];
      }
      b := stream[off..off + n];
      off := off + n;
    }
  }

  /** Reads exactly `size` bytes, unless the stream ends first. */
  method RecvAll(s: InSocket, size: nat) returns (ok: bool, buf: Bytes)
    requires s.Valid()
    modifies s
    ensures s.Valid() && (ok <==> |old(s.Left())| >= size)
    ensures ok ==> |buf| == size && old(s.Left()) == buf + s.Left()
  {
    buf := [];
    while |buf| < size
      invariant s.Valid() && |buf| <= size && old(s.Left()) == buf + s.Left()
      decreases size - |buf|
    {
      var b := s.Recv(size - |buf|);
      if b == [] { return false, buf; }
      Regroup(buf, b, s.Left());
      buf := buf + b;
    }
    return true, buf;
  }

  /** The connection's thread: every whole frame is delivered, until the stream ends or a length is not admissible. */
  method ClientLoop(s: InSocket) returns (delivered: seq<Bytes>)
    requires s.Valid()
    modifies s
    ensures delivered == Received(old(s.Left()))
  {
    delivered := [];
    while true
      invariant s.Valid() && delivered + Received(s.Left()) == Received(old(s.Left()))
      decreases |s.Left()|
    {
      ghost var left := s.Left();
      var m := NextMessage(s);
      if m == None { break; }
      Regroup(delivered, [m.value], Received(s.Left()));
      delivered := delivered + [m.value];
    }
  }

  method NextMessage(s: InSocket) returns (m: Option<Bytes>)
    requires s.Valid()
    modifies s
    ensures s.Valid() && m == First(old(s.Left()))
    ensures m.Some? ==> s.Left() == old(s.Left())[4 + |m.value|..]
  {
    ghost var left := s.Left();
    var ok, buf := RecvAll(s, 4);
    if !ok { return None; }
    var n := DecodeLen(buf);
    assert left[..4] == buf && s.Left() == left[4..];
    if n == 0 || n > MAX_MESSAGE { return None; }
    ok, buf := RecvAll(s, n);
    if !ok { return None; }
    assert left[4..] == buf + s.Left();
    assert left[4..][..n] == left[4..4 + n] && left[4..][n..] == left[4 + n..];
    return Some(buf);
  }

  lemma StreamSnoc(ms: seq<Bytes>, k: nat)
    requires k < |ms|
    ensures Stream(ms[..k + 1]) == Stream(ms[..k]) + Frame(ms[k])
  {
    assert ms[..k + 1] == ms[..k] + [ms[k]];
    StreamConcat(ms[..k], [ms[k]]);
    StreamOfOne(ms[k]);
  }

  lemma OneMore(start: seq<int>, plan: seq<int>, m: Bytes)
    requires Spent(start, plan, true) && |m| <= INT_MAX
    ensures Spent(start, FrameUnused([m], plan), FrameGone([m], plan) == |Frame(m)|)
  {
    OneBuffer(m);
    FrameSpends([m], plan);
    SpentMore(start, plan, FrameUnused([m], plan), FrameGone([m], plan) == |Frame(m)|);
  }

  /** Sends the frames of a list of messages until one send fails, which it does exactly at a failing call. */
  method SendMessages(o: OutSocket, ms: seq<Bytes>) returns (sent: nat, ghost cut: Bytes)
    requires o.written == [] && forall k :: 0 <= k < |ms| ==> |ms[k]| <= INT_MAX
    modifies o
    ensures sent <= |ms| && o.written == Stream(ms[..sent]) + cut
    ensures sent == |ms| ==> cut == []
    ensures sent < |ms| ==> cut < Frame(ms[sent])
    ensures Spent(old(o.plan), o.plan, sent == |ms|)
  {
    SpentNone(o.plan);
    sent := 0;
    while sent < |ms|
      invariant 0 <= sent <= |ms| && o.written == Stream(ms[..sent]) && Spent(old(o.plan), o.plan, true)
    {
      StreamSnoc(ms, sent);
      ghost var before, plan := o.written, o.plan;
      var ok := SendFrame(o, ms[sent]);
      OneMore(old(o.plan), plan, ms[sent]);
      if !ok {
        cut := o.written[|before|..];
        return;
      }
      sent := sent + 1;
    }
    cut := [];
  }

  /** Both ends together: all is delivered when no send fails, else exactly what was sent whole, for every split. */
  method Exchange(ms: seq<Bytes>, sending: seq<int>, receiving: seq<int>) returns (sent: nat, delivered: seq<Bytes>)
    requires forall k :: 0 <= k < |ms| ==> Deliverable(ms[k])
    ensures sent <= |ms| && delivered == ms[..sent]
    ensures sent < |ms| ==> !Willing(sending)
    ensures Willing(sending) ==> delivered == ms
  {
    var o := new OutSocket(sending);
    ghost var cut;
    sent, cut := SendMessages(o, ms);
    if Willing(sending) {
      WillingSucceeds(sending, o.plan, sent == |ms|);
      assert ms[..sent] == ms;
    }
    var s := new InSocket(o.written, receiving);
    delivered := ClientLoop(s);
    if sent < |ms| {
      CutStream(ms[..sent], cut, ms[sent]);
    } else {
      FramesArrive(ms[..sent], []);
      assert ms[..sent] + [] == ms[..sent];
    }
  }

  // ---------------------------------------------------------------- a frame behind a cut one

  /**
    A failed send leaves the connection in use, so another frame can follow a cut one. The receiver then
    completes the cut message with the bytes that follow and goes on from there.
  */
  lemma AfterCut(ms: seq<Bytes>, m: Bytes, cut: Bytes, rest: Bytes)
    requires forall k :: 0 <= k < |ms| ==> Deliverable(ms[k])
    requires Deliverable(m) && cut < Frame(m)
    ensures Received(Stream(ms) + (cut + rest)) == ms + Received(cut + rest)
    ensures |cut| >= 4 ==> Received(cut + rest) == Completed(m, cut, rest)
  {
    FramesArrive(ms, cut + rest);
    if |cut| >= 4 {
      if |rest| < 4 + |m| - |cut| { CutBehind(m, cut, rest); } else { CutCompleted(m, cut, rest); }
    }
  }

  /** The message completed by what follows it, and what comes of the rest. */
  function Completed(m: Bytes, cut: Bytes, rest: Bytes): (ms: seq<Bytes>)
    requires 4 <= |cut| <= 4 + |m|
  {
    var missing := 4 + |m| - |cut|;
    if |rest| < missing then [] else [cut[4..] + rest[..missing]] + Received(rest[missing..])
  }

  lemma CutCompleted(m: Bytes, cut: Bytes, rest: Bytes)
    requires Deliverable(m) && cut < Frame(m) && |cut| >= 4 && |cut| + |rest| >= 4 + |m|
    ensures Received(cut + rest) == Completed(m, cut, rest)
  {
    var missing := 4 + |m| - |cut|;
    var spliced := cut[4..] + rest[..missing];
    CutLength(m, cut);
    SplitAt(cut, 4);
    SplitAt(rest, missing);
    FourParts(cut[..4], cut[4..], rest[..missing], rest[missing..]);
    FrameOf(spliced, |m|);
    NextFrame(spliced, rest[missing..]);
  }

  lemma FrameOf(m: Bytes, n: uint32)
    requires |m| == n
    ensures Frame(m) == LengthBytes(n) + m
  {
  }

  lemma SplitAt<T>(s: seq<T>, k: nat)
    requires k <= |s|
    ensures s == s[..k] + s[k..]
  {
  }

  lemma CutLength(m: Bytes, cut: Bytes)
    requires |m| < WORD && cut < Frame(m) && |cut| >= 4
    ensures cut[..4] == LengthBytes(|m|)
  {
    assert cut[..4] == Frame(m)[..4];
  }

  lemma FourParts<T>(a: seq<T>, b: seq<T>, c: seq<T>, d: seq<T>)
    ensures (a + b) + (c + d) == (a + (b + c)) + d
  {
  }

  lemma CutBehind(m: Bytes, cut: Bytes, rest: Bytes)
    requires Deliverable(m) && cut < Frame(m) && |cut| >= 4 && |cut| + |rest| < 4 + |m|
    ensures Received(cut + rest) == []
  {
    LengthRoundTrip(|m|);
    CutLength(m, cut);
    assert (cut + rest)[..4] == cut[..4];
    TooShort(cut + rest, |m|);
  }

  /** A stream that ends before its first message does. */
  lemma TooShort(s: Bytes, n: nat)
    requires 4 <= |s| < 4 + n && FromBe(s[..4]) == n
    ensures Received(s) == []
  {
  }

  /** Two sends over one connection of which the first fails: the receiver gets what went out of it and the whole second frame. */
  method SendTwice(a: Bytes, b: Bytes, plan: seq<int>) returns (delivered: seq<Bytes>)
    requires |a| <= INT_MAX && |b| <= INT_MAX && FrameGone([a], plan) < |Frame(a)|
    requires plan != [] && Willing(plan[..|plan| - 1])
    ensures delivered == Received(Frame(a)[..FrameGone([a], plan)] + Frame(b))
  {
    var o := new OutSocket(plan);
    var first := SendFrame(o, a);
    LastCallFails(a, plan);
    assert o.written == Frame(a)[..FrameGone([a], plan)];
    var second := SendFrame(o, b);
    NoCallFails(b);
    var s := new InSocket(o.written, []);
    delivered := ClientLoop(s);
  }

  lemma LastCallFails(a: Bytes, plan: seq<int>)
    requires |a| <= INT_MAX && FrameGone([a], plan) < |Frame(a)| && plan != [] && Willing(plan[..|plan| - 1])
    ensures FrameUnused([a], plan) == []
  {
    OneBuffer(a);
    FrameSpends([a], plan);
    UsedUp(plan, FrameUnused([a], plan), false);
  }

  lemma NoCallFails(b: Bytes)
    requires |b| <= INT_MAX
    ensures FrameGone([b], []) == |Frame(b)| && Frame(b)[..|Frame(b)|] == Frame(b)
  {
    OneBuffer(b);
    FrameGoesOut([b], []);
  }

  /** The failing call was the last one planned. */
  lemma UsedUp(before: seq<int>, after: seq<int>, ok: bool)
    requires Spent(before, after, ok) && !ok && before != [] && Willing(before[..|before| - 1])
    ensures after == []
  {
    var n := |before| - |after|;
    assert before[..n][n - 1] == before[n - 1];
    var most := before[..|before| - 1];
    assert forall k :: 0 <= k < |most| ==> most[k] == before[k];
  }

  /** A send that fails after five bytes and another one: a message arrives that nobody sent. */
  method NobodySent() returns (delivered: seq<Bytes>)
    ensures delivered == [[1, 0]]
  {
    CutPlan();
    Spliced();
    delivered := SendTwice([1, 2], [7], [4, 1, 0]);
  }

  lemma CutPlan()
    ensures FrameGone([[1, 2]], [4, 1, 0]) == 5 && Willing([4, 1, 0][..2])
  {
    var p := [4, 1, 0];
    OneBuffer([1, 2]);
    assert Rest(p) == [1, 0] && Rest([1, 0]) == [0];
    assert Gone(4, p) == 4 && Unused(4, p) == [1, 0];
    assert Gone(1, [0]) == 0;
    assert Gone(2, [1, 0]) == 1;
  }

  /** What the receiver makes of the two pieces. */
  lemma Spliced()
    ensures Received(Frame([1, 2])[..5] + Frame([7])) == [[1, 0]]
  {
    var cut, rest: Bytes := [0, 0, 0, 2, 1], [0, 0, 0, 1, 7];
    FrameOfSmall([1, 2]);
    FrameOfSmall([7]);
    assert Frame([1, 2])[..5] == cut && Frame([7]) == rest;
    AfterCut([], [1, 2], cut, rest);
    assert cut[4..] + rest[..1] == [1, 0] && rest[1..] == [0, 0, 1, 7];
    LongLength();
    assert [] + (cut + rest) == cut + rest;
  }

  lemma FrameOfSmall(m: Bytes)
    requires |m| < 0x100
    ensures Frame(m) == [0, 0, 0, |m|] + m
  {
    BeFour(|m|);
  }

  lemma LongLength()
    ensures Received([0, 0, 1, 7]) == []
  {
    LengthRoundTrip(263);
    BeFour(263);
    var s: Bytes := [0, 0, 1, 7];
    assert s[..4] == s == LengthBytes(263);
    TooShort(s, 263);
  }
}
