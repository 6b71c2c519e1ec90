/** What peers learn from an ANNOUNCE: everything up to the format's cuts, and nothing from a truncated one. */
module AnnounceSafety {
  import opened Words
  import opened Crc32
  import opened MessageCodec
  import opened Announce

  // ---------------------------------------------------------------- reading back what was written

  lemma ReadsU8(b: uint8, t: Bytes)
    ensures U8(Rest([b] + t, true)) == (b, Rest(t, true))
  {
  }

  lemma ReadsU16(v: uint16, t: Bytes)
    ensures U16(Rest(Le(v, 2) + t, true)) == (v, Rest(t, true))
  {
    var b := Le(v, 2);
    Ranges();
    FromLeLe(v, 2);
    FromTwo(b);
    assert (b + t)[2..] == t;
  }

  lemma ReadsU32(v: uint32, t: Bytes)
    ensures U32(Rest(Le(v, 4) + t, true)) == (v, Rest(t, true))
  {
    var b := Le(v, 4);
    Ranges();
    FromLeLe(v, 4);
    FromFour(b);
    assert (b + t)[4..] == t;
  }

  lemma ReadsChars(s: Bytes, t: Bytes)
    ensures Chars(Rest(s + t, true), |s|) == (s, Rest(t, true))
  {
    assert (s + t)[..|s|] == s && (s + t)[|s|..] == t;
  }

  lemma ReadsStr8(s: Bytes, t: Bytes)
    ensures ReadStr8(Rest(Str8(s) + t, true)) == (Cut8(s), Rest(t, true))
  {
    assert Str8(s) + t == [|Cut8(s)|] + (Cut8(s) + t);
    ReadsU8(|Cut8(s)|, Cut8(s) + t);
    ReadsChars(Cut8(s), t);
  }

  lemma ReadsStr16(s: Bytes, t: Bytes)
    ensures ReadStr16(Rest(Str16(s) + t, true)) == (Cut16(s), Rest(t, true))
  {
    assert Str16(s) + t == Le(|Cut16(s)|, 2) + (Cut16(s) + t);
    ReadsU16(|Cut16(s)|, Cut16(s) + t);
    ReadsChars(Cut16(s), t);
  }

  function Cuts(ts: seq<Bytes>): (r: seq<Bytes>)
    ensures |r| == |ts| && forall k :: 0 <= k < |ts| ==> r[k] == Cut16(ts[k])
  {
    seq(|ts|, k requires 0 <= k < |ts| => Cut16(ts[k]))
  }

  function CutEndpoint(e: Endpoint): (r: Endpoint) {
    Endpoint(Cut8(e.transport), Cut8(e.address), e.port)
  }

  function CutEndpoints(es: seq<Endpoint>): (r: seq<Endpoint>)
    ensures |r| == |es| && forall k :: 0 <= k < |es| ==> r[k] == CutEndpoint(es[k])
  {
    seq(|es|, k requires 0 <= k < |es| => CutEndpoint(es[k]))
  }

  lemma {:induction false} ReadsTopics(ts: seq<Bytes>, t: Bytes)
    ensures ReadTopics(Rest(TopicBytes(ts) + t, true), |ts|) == (Rest(t, true), Topics(Cuts(ts), []))
    decreases |ts|
  {
    if ts == [] {
      assert TopicBytes(ts) + t == t;
    } else {
      var n := |ts| - 1;
      var front, last := ts[..n], ts[n];
      assert ts == front + [last];
      TopicBytesSnoc(front, last);
      assert TopicBytes(ts) + t == TopicBytes(front) + ([ROLE_SUB] + (Str16(last) + t));
      ReadsTopics(front, [ROLE_SUB] + (Str16(last) + t));
      ReadsU8(ROLE_SUB, Str16(last) + t);
      ReadsStr16(last, t);
      assert Cuts(ts) == Cuts(front) + [Cut16(last)];
    }
  }

  lemma ReadsEndpoint(e: Endpoint, t: Bytes, es: seq<Endpoint>)
    ensures ReadEndpoint(Rest(EndpointBytes(e) + t, true), es) == (Rest(t, true), es + [CutEndpoint(e)])
  {
    assert EndpointBytes(e) + t == Str8(e.transport) + (Str8(e.address) + (Le(e.port, 2) + t));
    ReadsStr8(e.transport, Str8(e.address) + (Le(e.port, 2) + t));
    ReadsStr8(e.address, Le(e.port, 2) + t);
    ReadsU16(e.port, t);
  }

  lemma CutEndpointsSnoc(es: seq<Endpoint>, e: Endpoint)
    ensures CutEndpoints(es + [e]) == CutEndpoints(es) + [CutEndpoint(e)]
  {
  }

  lemma {:induction false} ReadsEndpoints(es: seq<Endpoint>, t: Bytes)
    ensures ReadEndpoints(Rest(EndpointsBytes(es) + t, true), |es|) == (Rest(t, true), CutEndpoints(es))
    decreases |es|
  {
    if es == [] {
      assert EndpointsBytes(es) + t == t;
    } else {
      var n := |es| - 1;
      var front, last := es[..n], es[n];
      assert es == front + [last];
      EndpointsBytesSnoc(front, last);
      JoinBody(EndpointsBytes(front), EndpointBytes(last), t);
      ReadsEndpoints(front, EndpointBytes(last) + t);
      ReadsEndpoint(last, t, CutEndpoints(front));
      CutEndpointsSnoc(front, last);
    }
  }

  /** The 32-bit length field loses whole multiples of 2^32. */
  function SentPayload(w: Will): (p: Bytes) {
    w.payload[..Wrap(|w.payload|)]
  }

  function Unsent(w: Will): (p: Bytes) {
    w.payload[Wrap(|w.payload|)..]
  }

  function CutWill(w: Will): (r: Will) {
    Will(w.qos, w.retain, Cut16(w.topic), SentPayload(w))
  }

  lemma ReadsWill(w: Will, t: Bytes)
    ensures ReadWill(Rest(WillBytes(w) + t, true)) == (Rest(Unsent(w) + t, true), Some(CutWill(w)))
  {
    var retain: uint8 := if w.retain then 1 else 0;
    var r3 := Le(Wrap(|w.payload|), 4) + (w.payload + t);
    RegroupWill([w.qos], [retain], Str16(w.topic), Le(Wrap(|w.payload|), 4), w.payload, t);
    assert [w.qos, retain] == [w.qos] + [retain];
    ReadsU8(w.qos, [retain] + (Str16(w.topic) + r3));
    ReadsU8(retain, Str16(w.topic) + r3);
    ReadsStr16(w.topic, r3);
    ReadsWillPayload(w, t);
  }

  lemma ReadsWillPayload(w: Will, t: Bytes)
    ensures var retain: uint8 := if w.retain then 1 else 0;
            ReadWillPayload(Rest(Le(Wrap(|w.payload|), 4) + (w.payload + t), true), w.qos, retain, Cut16(w.topic)) ==
            (Rest(Unsent(w) + t, true), Some(CutWill(w)))
  {
    ReadsU32(Wrap(|w.payload|), w.payload + t);
    PayloadSplit(w, t);
  }

  lemma RegroupWill(a: Bytes, b: Bytes, c: Bytes, d: Bytes, e: Bytes, t: Bytes)
    ensures a + b + c + d + e + t == a + (b + (c + (d + (e + t))))
  {
  }

  lemma PayloadSplit(w: Will, t: Bytes)
    ensures Wrap(|w.payload|) <= |w.payload|
    ensures var r4, n := w.payload + t, Wrap(|w.payload|); r4[..n] == SentPayload(w) && r4[n..] == Unsent(w) + t
  {
  }

  /** What a peer is meant to learn. */
  function Learned(i: Info): (p: Peer) {
    Peer(i.nodeId, Cut8(i.name), Cut8(i.host), Cuts(FirstTopics(i)), [], CutEndpoints(FirstEndpoints(i)),
         if HasWill(i) then Some(CutWill(i.will)) else None)
  }

  function Tail(i: Info): (t: Bytes) {
    if HasWill(i) then Unsent(i.will) else []
  }

  function Body(i: Info): (b: Bytes) {
    Str8(i.name) + Str8(i.host) + [|FirstTopics(i)|] + TopicBytes(FirstTopics(i)) +
    [|FirstEndpoints(i)|] + EndpointsBytes(FirstEndpoints(i)) + (if HasWill(i) then WillBytes(i.will) else [])
  }

  lemma Regroup(a: Bytes, b: Bytes, c: Bytes, d: Bytes, e: Bytes, f: Bytes, g: Bytes, t: Bytes)
    ensures a + b + c + d + e + f + g + t == a + (b + (c + (d + (e + (f + (g + t))))))
  {
  }

  lemma RegroupHead(h: Bytes, a: Bytes, b: Bytes, c: Bytes, d: Bytes, e: Bytes, f: Bytes, g: Bytes)
    ensures h + a + b + c + d + e + f + g == h + (a + b + c + d + e + f + g)
  {
  }

  lemma HeadAndBody(i: Info)
    ensures Announced(i) == Head(i) + Body(i)
  {
    RegroupHead(Head(i), Str8(i.name), Str8(i.host), [|FirstTopics(i)|], TopicBytes(FirstTopics(i)),
                [|FirstEndpoints(i)|], EndpointsBytes(FirstEndpoints(i)), if HasWill(i) then WillBytes(i.will) else []);
  }

  lemma ReadsTail(i: Info, t: Bytes)
    ensures var r := Rest((if HasWill(i) then WillBytes(i.will) else []) + t, true);
            (if HasWill(i) then ReadWill(r) else (r, None)) == (Rest(Tail(i) + t, true), Learned(i).will)
  {
    if HasWill(i) { ReadsWill(i.will, t); }
  }

  function Lists(i: Info, t: Bytes): (b: Bytes) {
    [|FirstTopics(i)|] + (TopicBytes(FirstTopics(i)) + ([|FirstEndpoints(i)|] + (EndpointsBytes(FirstEndpoints(i)) +
      ((if HasWill(i) then WillBytes(i.will) else []) + t))))
  }

  lemma ReadsLists(i: Info, t: Bytes)
    ensures ReadLists(Rest(Lists(i, t), true), Peer(i.nodeId, Cut8(i.name), Cut8(i.host), [], [], [], None), HasWill(i)) ==
            (Rest(Tail(i) + t, true), Learned(i))
  {
    var ts, es := FirstTopics(i), FirstEndpoints(i);
    var t6 := (if HasWill(i) then WillBytes(i.will) else []) + t;
    var t5 := EndpointsBytes(es) + t6;
    var t4 := [|es|] + t5;
    ReadsU8(|ts|, TopicBytes(ts) + t4);
    ReadsTopics(ts, t4);
    ReadsU8(|es|, t5);
    ReadsEndpoints(es, t6);
    ReadsTail(i, t);
  }

  lemma ReadsBody(i: Info, t: Bytes)
    ensures ReadBody(Rest(Body(i) + t, true), i.nodeId, HasWill(i)) == (Rest(Tail(i) + t, true), Learned(i))
  {
    var ts, es := FirstTopics(i), FirstEndpoints(i);
    Regroup(Str8(i.name), Str8(i.host), [|ts|], TopicBytes(ts), [|es|], EndpointsBytes(es),
            if HasWill(i) then WillBytes(i.will) else [], t);
    ReadsStr8(i.name, Str8(i.host) + Lists(i, t));
    ReadsStr8(i.host, Lists(i, t));
    ReadsLists(i, t);
  }

  lemma ReadsHead(i: Info, body: Bytes)
    requires ReadBody(Rest(body, true), i.nodeId, HasWill(i)).0.ok
    ensures var v := ReadBody(Rest(body, true), i.nodeId, HasWill(i));
            ReadAll(Rest(Head(i) + body, true), i.domain) == (v.0, Some(v.1))
  {
    var flags: uint8 := if HasWill(i) then 1 else 0;
    assert Head(i) + body == Le(i.nodeId, 2) + ([i.domain] + ([flags] + body));
    ReadsU16(i.nodeId, [i.domain] + ([flags] + body));
    ReadsU8(i.domain, [flags] + body);
    ReadsU8(flags, body);
  }

  /** Parsing a built payload gives back the node, whatever follows it. */
  lemma ReadsAnnounced(i: Info, t: Bytes)
    ensures ReadAll(Rest(Announced(i) + t, true), i.domain) == (Rest(Tail(i) + t, true), Some(Learned(i)))
  {
    HeadAndBody(i);
    JoinBody(Head(i), Body(i), t);
    ReadsBody(i, t);
    ReadsHead(i, Body(i) + t);
  }

  /** A peer of the same domain, and no other, learns the announcement. */
  lemma AnnounceRoundTrip(i: Info, t: Bytes, domain: uint8)
    ensures Parsed(Announced(i) + t, domain) == if domain == i.domain then Some(Learned(i)) else None
  {
    ReadsAnnounced(i, t);
    assert Announced(i)[2] == i.domain;
  }

  /** Whatever the bytes, what is accepted is of this domain. */
  lemma OnlyOwnDomain(data: Bytes, domain: uint8)
    ensures Parsed(data, domain).Some? ==> |data| >= 4 && data[2] == domain
  {
  }

  /** A name or host up to 255 bytes, a topic up to 65535 and up to 255 items are not cut at all. */
  predicate Fits(i: Info) {
    |i.name| <= 255 && |i.host| <= 255 && |i.topics| <= 255 && |i.endpoints| <= 255 &&
    (forall t :: t in i.topics ==> |t| <= 0xFFFF) &&
    (forall e :: e in i.endpoints ==> |e.transport| <= 255 && |e.address| <= 255) &&
    |i.will.topic| <= 0xFFFF && |i.will.payload| < WORD
  }

  lemma NothingCut(i: Info)
    requires Fits(i)
    ensures Learned(i) == Peer(i.nodeId, i.name, i.host, i.topics, [], i.endpoints, if HasWill(i) then Some(i.will) else None)
  {
    assert forall k :: 0 <= k < |i.topics| ==> i.topics[k] in i.topics;
    assert forall k :: 0 <= k < |i.endpoints| ==> i.endpoints[k] in i.endpoints;
    assert FirstTopics(i) == i.topics && FirstEndpoints(i) == i.endpoints;
    assert forall k :: 0 <= k < |i.endpoints| ==> CutEndpoint(i.endpoints[k]) == i.endpoints[k];
    assert forall k :: 0 <= k < |i.topics| ==> Cut16(i.topics[k]) == i.topics[k];
    assert Cut16(i.will.topic) == i.will.topic && SentPayload(i.will) == i.will.payload;
    assert Cuts(FirstTopics(i)) == i.topics && CutEndpoints(FirstEndpoints(i)) == i.endpoints;
  }

  // ---------------------------------------------------------------- more bytes change nothing that succeeded

  function More(r: Rest, t: Bytes): (q: Rest) {
    Rest(r.bytes + t, r.ok)
  }

  lemma MoreChars(r: Rest, n: nat, t: Bytes)
    requires Chars(r, n).1.ok
    ensures r.ok && Chars(More(r, t), n) == (Chars(r, n).0, More(Chars(r, n).1, t))
  {
    assert (r.bytes + t)[..n] == r.bytes[..n] && (r.bytes + t)[n..] == r.bytes[n..] + t;
  }

  lemma MoreNumbers(r: Rest, t: Bytes)
    ensures U8(r).1.ok ==> r.ok && U8(More(r, t)) == (U8(r).0, More(U8(r).1, t))
    ensures U16(r).1.ok ==> r.ok && U16(More(r, t)) == (U16(r).0, More(U16(r).1, t))
    ensures U32(r).1.ok ==> r.ok && U32(More(r, t)) == (U32(r).0, More(U32(r).1, t))
  {
    assert |r.bytes| >= 1 ==> (r.bytes + t)[1..] == r.bytes[1..] + t;
    assert |r.bytes| >= 2 ==> (r.bytes + t)[2..] == r.bytes[2..] + t;
    assert |r.bytes| >= 4 ==> (r.bytes + t)[4..] == r.bytes[4..] + t;
  }

  lemma MoreStr8(r: Rest, t: Bytes)
    requires ReadStr8(r).1.ok
    ensures r.ok && ReadStr8(More(r, t)) == (ReadStr8(r).0, More(ReadStr8(r).1, t))
  {
    var (n, q) := U8(r);
    MoreChars(q, n, t);
    MoreNumbers(r, t);
  }

  lemma MoreStr16(r: Rest, t: Bytes)
    requires ReadStr16(r).1.ok
    ensures r.ok && ReadStr16(More(r, t)) == (ReadStr16(r).0, More(ReadStr16(r).1, t))
  {
    var (n, q) := U16(r);
    MoreChars(q, n, t);
    MoreNumbers(r, t);
  }

  lemma {:induction false} MoreTopics(r: Rest, n: nat, t: Bytes)
    requires ReadTopics(r, n).0.ok
    ensures r.ok && ReadTopics(More(r, t), n) == (More(ReadTopics(r, n).0, t), ReadTopics(r, n).1)
  {
    if n > 0 {
      var q := ReadTopics(r, n - 1).0;
      MoreTopics(r, n - 1, t);
      MoreStr16(U8(q).1, t);
      MoreNumbers(q, t);
    }
  }

  lemma MoreEndpoint(r: Rest, es: seq<Endpoint>, t: Bytes)
    requires ReadEndpoint(r, es).0.ok
    ensures r.ok && ReadEndpoint(More(r, t), es) == (More(ReadEndpoint(r, es).0, t), ReadEndpoint(r, es).1)
  {
    var r1 := ReadStr8(r).1;
    var r2 := ReadStr8(r1).1;
    MoreNumbers(r2, t);
    MoreStr8(r1, t);
    MoreStr8(r, t);
  }

  lemma {:induction false} MoreEndpoints(r: Rest, n: nat, t: Bytes)
    requires ReadEndpoints(r, n).0.ok
    ensures r.ok && ReadEndpoints(More(r, t), n) == (More(ReadEndpoints(r, n).0, t), ReadEndpoints(r, n).1)
  {
    if n > 0 {
      var q := ReadEndpoints(r, n - 1);
      MoreEndpoints(r, n - 1, t);
      MoreEndpoint(q.0, q.1, t);
    }
  }

  lemma MoreWill(r: Rest, t: Bytes)
    requires ReadWill(r).0.ok
    ensures r.ok && ReadWill(More(r, t)) == (More(ReadWill(r).0, t), ReadWill(r).1)
  {
    var (qos, r1) := U8(r);
    var (retain, r2) := U8(r1);
    var (topic, r3) := ReadStr16(r2);
    MoreWillPayload(r3, qos, retain, topic, t);
    MoreStr16(r2, t);
    MoreNumbers(r1, t);
    MoreNumbers(r, t);
  }

  lemma MoreWillPayload(r: Rest, qos: uint8, retain: uint8, topic: Bytes, t: Bytes)
    requires ReadWillPayload(r, qos, retain, topic).0.ok
    ensures r.ok
    ensures ReadWillPayload(More(r, t), qos, retain, topic) ==
            (More(ReadWillPayload(r, qos, retain, topic).0, t), ReadWillPayload(r, qos, retain, topic).1)
  {
    var (n, q) := U32(r);
    MoreChars(q, n, t);
    MoreNumbers(r, t);
  }

  lemma MoreLists(r: Rest, peer: Peer, hasWill: bool, t: Bytes)
    requires ReadLists(r, peer, hasWill).0.ok
    ensures r.ok && ReadLists(More(r, t), peer, hasWill) == (More(ReadLists(r, peer, hasWill).0, t), ReadLists(r, peer, hasWill).1)
  {
    var (n, r3) := U8(r);
    var r4 := ReadTopics(r3, n).0;
    var (m, r5) := U8(r4);
    var r6 := ReadEndpoints(r5, m).0;
    if hasWill { MoreWill(r6, t); }
    MoreEndpoints(r5, m, t);
    MoreNumbers(r4, t);
    MoreTopics(r3, n, t);
    MoreNumbers(r, t);
  }

  lemma MoreBody(r: Rest, id: uint16, hasWill: bool, t: Bytes)
    requires ReadBody(r, id, hasWill).0.ok
    ensures r.ok && ReadBody(More(r, t), id, hasWill) == (More(ReadBody(r, id, hasWill).0, t), ReadBody(r, id, hasWill).1)
  {
    var (name, r1) := ReadStr8(r);
    var (host, r2) := ReadStr8(r1);
    MoreLists(r2, Peer(id, name, host, [], [], [], None), hasWill, t);
    MoreStr8(r1, t);
    MoreStr8(r, t);
  }

  lemma MoreAll(r: Rest, domain: uint8, t: Bytes)
    requires ReadAll(r, domain).1.Some?
    ensures ReadAll(More(r, t), domain) == (More(ReadAll(r, domain).0, t), ReadAll(r, domain).1)
  {
    var (id, r1) := U16(r);
    var r2 := U8(r1).1;
    var (flags, r3) := U8(r2);
    MoreBody(r3, id, flags % 2 == 1, t);
    MoreNumbers(r2, t);
    MoreNumbers(r1, t);
    MoreNumbers(r, t);
  }

  lemma NoProperPrefix(all: Bytes, data: Bytes, domain: uint8)
    requires data < all
    requires Parsed(all, domain).Some? ==> ReadAll(Rest(all, true), domain).0.bytes == []
    ensures Parsed(data, domain) == None
  {
    var t := all[|data|..];
    assert all == data + t;
    if Parsed(data, domain).Some? { MoreAll(Rest(data, true), domain, t); }
  }

  lemma AppendNothing(b: Bytes)
    ensures b + [] == b
  {
  }

  lemma NoTail(i: Info)
    requires |i.will.payload| < WORD
    ensures Tail(i) == []
  {
  }

  lemma ReadsExactly(i: Info)
    requires |i.will.payload| < WORD
    ensures ReadAll(Rest(Announced(i), true), i.domain).0.bytes == []
  {
    AppendNothing(Announced(i));
    ReadsAnnounced(i, []);
    NoTail(i);
  }

  lemma OtherDomain(i: Info, domain: uint8)
    requires domain != i.domain
    ensures Parsed(Announced(i), domain) == None
  {
    AppendNothing(Announced(i));
    AnnounceRoundTrip(i, [], domain);
  }

  /** No truncated announcement is ever accepted. */
  lemma TruncatedRejected(i: Info, data: Bytes, domain: uint8)
    requires |i.will.payload| < WORD
    requires data < Announced(i)
    ensures Parsed(data, domain) == None
  {
    if domain == i.domain { ReadsExactly(i); } else { OtherDomain(i, domain); }
    NoProperPrefix(Announced(i), data, domain);
  }

  // ---------------------------------------------------------------- the bytes themselves

  /** A will is announced exactly if it is enabled and has a topic, and then it arrives. */
  lemma WillLearned(i: Info, t: Bytes)
    ensures Parsed(Announced(i) + t, i.domain).Some?
    ensures var w := Parsed(Announced(i) + t, i.domain).value.will;
            if i.willEnabled && |i.will.topic| > 0 then
              w.Some? && w.value.qos == i.will.qos && w.value.retain == i.will.retain && w.value.topic == Cut16(i.will.topic) &&
              (|i.will.payload| < WORD ==> w.value.payload == i.will.payload)
            else w == None
  {
    AnnounceRoundTrip(i, t, i.domain);
    WillIs(i, Learned(i).will);
  }

  lemma WillIs(i: Info, w: Option<Will>)
    requires w == if HasWill(i) then Some(CutWill(i.will)) else None
    ensures if i.willEnabled && |i.will.topic| > 0 then
              w.Some? && w.value.qos == i.will.qos && w.value.retain == i.will.retain && w.value.topic == Cut16(i.will.topic) &&
              (|i.will.payload| < WORD ==> w.value.payload == i.will.payload)
            else w == None
  {
    if |i.will.payload| < WORD {
      WrapSmall(|i.will.payload|);
      assert i.will.payload[..|i.will.payload|] == i.will.payload;
    }
  }

  /** The payload starts with node id, domain and flags; name and host follow, each behind its length. */
  lemma HeadLayout(i: Info)
    ensures var b, n, h := Announced(i), Min(|i.name|, 255), Min(|i.host|, 255);
            |b| >= 6 + n + h && LittleTwo(b[0], b[1]) == i.nodeId && b[2] == i.domain &&
            b[3] == (if i.willEnabled && |i.will.topic| > 0 then 1 else 0) &&
            b[4] == n && b[5..5 + n] == i.name[..n] && b[5 + n] == h && b[6 + n..6 + n + h] == i.host[..h]
  {
    HeadBytes(i, Head(i));
    FrontIs(i);
    FrontOf(Head(i), [|Cut8(i.name)|], Cut8(i.name), [|Cut8(i.host)|], Cut8(i.host), Announced(i));
  }

  lemma HeadBytes(i: Info, h: Bytes)
    requires h == Head(i)
    ensures |h| == 4 && LittleTwo(h[0], h[1]) == i.nodeId && h[2] == i.domain && h[3] == if i.willEnabled && |i.will.topic| > 0 then 1 else 0
  {
    Ranges();
    FromLeLe(i.nodeId, 2);
    FromTwo(Le(i.nodeId, 2));
  }

  lemma FrontIs(i: Info)
    ensures Head(i) + Str8(i.name) + Str8(i.host) <= Announced(i)
  {
  }

  function LittleTwo(low: uint8, high: uint8): (v: nat) {
    low + 0x100 * high as int
  }

  lemma FrontOf(head: Bytes, a: Bytes, name: Bytes, c: Bytes, host: Bytes, all: Bytes)
    requires |head| == 4 && |a| == |c| == 1 && head + (a + name) + (c + host) <= all
    ensures var n, h := |name|, |host|;
            |all| >= 6 + n + h && all[..4] == head && all[4] == a[0] && all[5..5 + n] == name && all[5 + n] == c[0] &&
            all[6 + n..6 + n + h] == host
  {
    var front := head + (a + name) + (c + host);
    assert all == front + all[|front|..];
  }

  /** Every announced topic is two length bytes and its characters behind the role byte 2. */
  lemma TopicLayout(ts: seq<Bytes>)
    requires ts != [] && |ts[0]| <= 0xFFFF
    ensures TopicBytes(ts) == [2, |ts[0]| % 0x100, |ts[0]| / 0x100] + ts[0] + TopicBytes(ts[1..])
  {
    var n := |ts[0]|;
    assert Le(n, 2) == [n % 0x100] + Le(n / 0x100, 1) && Le(n / 0x100, 1) == [n / 0x100 % 0x100];
    assert Cut16(ts[0]) == ts[0];
  }

  /** An endpoint is its transport, its address, each behind its length, and its port. */
  lemma EndpointLayout(e: Endpoint)
    requires |e.transport| <= 0xFF && |e.address| <= 0xFF
    ensures EndpointBytes(e) == [|e.transport|] + e.transport + ([|e.address|] + e.address) + [e.port % 0x100, e.port / 0x100]
  {
    assert Le(e.port, 2) == [e.port % 0x100] + Le(e.port / 0x100, 1) && Le(e.port / 0x100, 1) == [e.port / 0x100 % 0x100];
    assert Cut8(e.transport) == e.transport && Cut8(e.address) == e.address;
  }

  /** A will is its QoS, its retain flag, its topic behind two length bytes and its payload behind four. */
  lemma WillLayout(w: Will)
    requires |w.topic| <= 0xFFFF && |w.payload| < WORD
    ensures WillBytes(w) == [w.qos, if w.retain then 1 else 0, |w.topic| % 0x100, |w.topic| / 0x100] + w.topic + Le(|w.payload|, 4) + w.payload
  {
    var n := |w.topic|;
    WrapSmall(|w.payload|);
    assert Le(n, 2) == [n % 0x100] + Le(n / 0x100, 1) && Le(n / 0x100, 1) == [n / 0x100 % 0x100];
    assert Cut16(w.topic) == w.topic;
  }

  // ---------------------------------------------------------------- what other builders may write

  datatype RoleTopic = RoleTopic(role: uint8, topic: Bytes)

  function RoleBytes(ts: seq<RoleTopic>): (b: Bytes) {
    if ts == [] then [] else RoleBytes(ts[..|ts| - 1]) + ([ts[|ts| - 1].role] + Str16(ts[|ts| - 1].topic))
  }

  /** The topics of role 2, or all others, in order. */
  function WithRole(ts: seq<RoleTopic>, subscribed: bool): (r: seq<Bytes>) {
    if ts == [] then []
    else
      var rest, last := WithRole(ts[..|ts| - 1], subscribed), ts[|ts| - 1];
      if (last.role == 2) == subscribed then rest + [Cut16(last.topic)] else rest
  }

  /** Topics of every role are read: those of role 2 as subscribed, all others as published. */
  lemma {:induction false} ReadsRoles(ts: seq<RoleTopic>, t: Bytes)
    ensures ReadTopics(Rest(RoleBytes(ts) + t, true), |ts|) == (Rest(t, true), Topics(WithRole(ts, true), WithRole(ts, false)))
    decreases |ts|
  {
    if ts == [] {
      assert RoleBytes(ts) + t == t;
    } else {
      var front, last := ts[..|ts| - 1], ts[|ts| - 1];
      var tail := [last.role] + (Str16(last.topic) + t);
      assert RoleBytes(ts) + t == RoleBytes(front) + tail;
      ReadsRoles(front, tail);
      ReadsU8(last.role, Str16(last.topic) + t);
      ReadsStr16(last.topic, t);
    }
  }

  /** Of the flags only the lowest is looked at. */
  lemma OtherFlagsIgnored(data: Bytes, v: uint8, domain: uint8)
    requires |data| >= 4 && v % 2 == data[3] % 2
    ensures Parsed(data[3 := v], domain) == Parsed(data, domain)
  {
    assert data[3 := v][4..] == data[4..] && data[4..] == data[2..][1..][1..] && data[3 := v][4..] == data[3 := v][2..][1..][1..];
  }

  /** Any retain byte but 0 means retained. */
  lemma RetainIs(r: Rest, qos: uint8, retain: uint8, topic: Bytes)
    ensures var w := ReadWillPayload(r, qos, retain, topic).1;
            w.Some? ==> w.value.qos == qos && w.value.topic == topic && (w.value.retain <==> retain > 0)
  {
  }
}
