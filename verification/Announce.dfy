/**
  The ANNOUNCE payload of src/discovery/discovery_agent.cpp: what a node says about itself, and the
  bounds-checked reader that takes it apart again. Strings are bytes.
*/
module Announce {
  import opened Words
  import opened Crc32
  import opened MessageCodec

  const ROLE_SUB: uint8 := 2

  datatype Endpoint = Endpoint(transport: Bytes, address: Bytes, port: uint16)
  datatype Will = Will(qos: uint8, retain: bool, topic: Bytes, payload: Bytes)

  /** What a node knows about itself. */
  datatype Info = Info(
    nodeId: uint16, domain: uint8, name: Bytes, host: Bytes, topics: seq<Bytes>, endpoints: seq<Endpoint>,
    willEnabled: bool, will: Will)

  /** What a peer learns. */
  datatype Peer = Peer(
    id: uint16, name: Bytes, host: Bytes, subscribed: seq<Bytes>, published: seq<Bytes>, endpoints: seq<Endpoint>,
    will: Option<Will>)

  // ---------------------------------------------------------------- the format

  function Min(a: nat, b: nat): (m: nat) {
    if a < b then a else b
  }

  function Cut8(s: Bytes): (r: Bytes) { s[..Min(|s|, 0xFF)] }

  function Cut16(s: Bytes): (r: Bytes) { s[..Min(|s|, 0xFFFF)] }

  function Str8(s: Bytes): (b: Bytes) { [|Cut8(s)|] + Cut8(s) }

  function Str16(s: Bytes): (b: Bytes) { Le(|Cut16(s)|, 2) + Cut16(s) }

  function TopicBytes(ts: seq<Bytes>): (b: Bytes) {
    if ts == [] then [] else [ROLE_SUB] + Str16(ts[0]) + TopicBytes(ts[1..])
  }

  function EndpointBytes(e: Endpoint): (b: Bytes) {
    Str8(e.transport) + Str8(e.address) + Le(e.port, 2)
  }

  function EndpointsBytes(es: seq<Endpoint>): (b: Bytes) {
    if es == [] then [] else EndpointBytes(es[0]) + EndpointsBytes(es[1..])
  }

  function WillBytes(w: Will): (b: Bytes) {
    [w.qos, if w.retain then 1 else 0] + Str16(w.topic) + Le(Wrap(|w.payload|), 4) + w.payload
  }

  predicate HasWill(i: Info) {
    i.willEnabled && i.will.topic != []
  }

  function FirstTopics(i: Info): (ts: seq<Bytes>)
    ensures |ts| <= 255
  {
    i.topics[..Min(|i.topics|, 255)]
  }

  function FirstEndpoints(i: Info): (es: seq<Endpoint>)
    ensures |es| <= 255
  {
    i.endpoints[..Min(|i.endpoints|, 255)]
  }

  function Head(i: Info): (b: Bytes) {
    Le(i.nodeId, 2) + [i.domain, if HasWill(i) then 1 else 0]
  }

  function Announced(i: Info): (b: Bytes) {
    Head(i) + Str8(i.name) + Str8(i.host) +
    [|FirstTopics(i)|] + TopicBytes(FirstTopics(i)) +
    [|FirstEndpoints(i)|] + EndpointsBytes(FirstEndpoints(i)) +
    (if HasWill(i) then WillBytes(i.will) else [])
  }

  // ---------------------------------------------------------------- building

  method Build(i: Info) returns (b: Bytes)
    ensures b == Announced(i)
  {
    var hasWill := i.willEnabled && i.will.topic != [];
    b := PutHead(i, hasWill);
    b := b + Str8(i.name);
    b := b + Str8(i.host);
    b := PutTopics(b, i.topics);
    b := PutEndpoints(b, i.endpoints);
    b := PutWill(b, i.will, hasWill);
  }

  method PutHead(i: Info, hasWill: bool) returns (b: Bytes)
    requires hasWill == HasWill(i)
    ensures b == Head(i)
  {
    b := Le(i.nodeId, 2) + [i.domain];
    b := b + [if hasWill then 1 else 0];
  }

  method PutWill(before: Bytes, w: Will, hasWill: bool) returns (b: Bytes)
    ensures b == before + if hasWill then WillBytes(w) else []
  {
    b := before;
    if hasWill {
      b := b + [w.qos, if w.retain then 1 else 0];
      b := b + Str16(w.topic);
      b := b + Le(Wrap(|w.payload|), 4);
      b := b + w.payload;
    }
  }

  method PutTopics(before: Bytes, topics: seq<Bytes>) returns (b: Bytes)
    ensures var ts := topics[..Min(|topics|, 255)]; b == before + [|ts|] + TopicBytes(ts)
  {
    var topicCount := Min(|topics|, 255);
    b := before + [topicCount];
    for k := 0 to topicCount
      invariant b == before + [topicCount] + TopicBytes(topics[..k])
    {
      TopicBytesSnoc(topics[..k], topics[k]);
      assert topics[..k + 1] == topics[..k] + [topics[k]];
      b := b + [ROLE_SUB];
      b := b + Str16(topics[k]);
    }
  }

  method PutEndpoints(before: Bytes, endpoints: seq<Endpoint>) returns (b: Bytes)
    ensures var es := endpoints[..Min(|endpoints|, 255)]; b == before + [|es|] + EndpointsBytes(es)
  {
    var epCount := Min(|endpoints|, 255);
    b := before + [epCount];
    for k := 0 to epCount
      invariant b == before + [epCount] + EndpointsBytes(endpoints[..k])
    {
      EndpointsBytesSnoc(endpoints[..k], endpoints[k]);
      assert endpoints[..k + 1] == endpoints[..k] + [endpoints[k]];
      b := b + EndpointBytes(endpoints[k]);
    }
  }

  lemma {:induction false} TopicBytesSnoc(ts: seq<Bytes>, t: Bytes)
    ensures TopicBytes(ts + [t]) == TopicBytes(ts) + [ROLE_SUB] + Str16(t)
  {
    if ts == [] {
      assert [t][1..] == [];
    } else {
      assert (ts + [t])[1..] == ts[1..] + [t];
      TopicBytesSnoc(ts[1..], t);
    }
  }

  lemma {:induction false} EndpointsBytesSnoc(es: seq<Endpoint>, e: Endpoint)
    ensures EndpointsBytes(es + [e]) == EndpointsBytes(es) + EndpointBytes(e)
  {
    if es == [] {
      assert [e][1..] == [];
    } else {
      assert (es + [e])[1..] == es[1..] + [e];
      EndpointsBytesSnoc(es[1..], e);
    }
  }

  // ---------------------------------------------------------------- reading, as functions of what is left

  /** The bytes not yet read, and whether every read so far had enough of them. */
  datatype Rest = Rest(bytes: Bytes, ok: bool)

  predicate Has(r: Rest, n: nat) { n <= |r.bytes| }

  function Failed(r: Rest): (q: Rest) { r.(ok := false) }

  function Skip(r: Rest, n: nat): (q: Rest)
    requires Has(r, n)
  {
    r.(bytes := r.bytes[n..])
  }

  function U8(r: Rest): (v: (uint8, Rest)) {
    if Has(r, 1) then (r.bytes[0], Skip(r, 1)) else (0, Failed(r))
  }

  function U16(r: Rest): (v: (uint16, Rest)) {
    if Has(r, 2) then (Word2(r.bytes[0], r.bytes[1]), Skip(r, 2)) else (0, Failed(r))
  }

  function U32(r: Rest): (v: (uint32, Rest)) {
    if Has(r, 4) then (Word4(r.bytes[0], r.bytes[1], r.bytes[2], r.bytes[3]), Skip(r, 4)) else (0, Failed(r))
  }

  function Chars(r: Rest, n: nat): (v: (Bytes, Rest)) {
    if Has(r, n) then (r.bytes[..n], Skip(r, n)) else ([], Failed(r))
  }

  function ReadStr8(r: Rest): (v: (Bytes, Rest)) {
    var (n, q) := U8(r);
    Chars(q, n)
  }

  function ReadStr16(r: Rest): (v: (Bytes, Rest)) {
    var (n, q) := U16(r);
    Chars(q, n)
  }

  /** Topics by role: subscribed and published. */
  datatype Topics = Topics(subscribed: seq<Bytes>, published: seq<Bytes>)

  function Filed(t: Topics, role: uint8, topic: Bytes): (r: Topics) {
    if role == ROLE_SUB then t.(subscribed := t.subscribed + [topic]) else t.(published := t.published + [topic])
  }

  function ReadTopic(r: Rest, t: Topics): (v: (Rest, Topics)) {
    var (role, r1) := U8(r);
    var (topic, r2) := ReadStr16(r1);
    (r2, if r2.ok then Filed(t, role, topic) else t)
  }

  /** What n rounds of the loop read; a failed read ends it. */
  function ReadTopics(r: Rest, n: nat): (v: (Rest, Topics))
    decreases r, n
  {
    if n == 0 then (r, Topics([], []))
    else
      var v := ReadTopics(r, n - 1);
      if v.0.ok then ReadTopic(v.0, v.1) else v
  }

  function ReadEndpoint(r: Rest, es: seq<Endpoint>): (v: (Rest, seq<Endpoint>)) {
    var (transport, r1) := ReadStr8(r);
    var (address, r2) := ReadStr8(r1);
    var (port, r3) := U16(r2);
    (r3, if r3.ok then es + [Endpoint(transport, address, port)] else es)
  }

  function ReadEndpoints(r: Rest, n: nat): (v: (Rest, seq<Endpoint>))
    decreases r, n
  {
    if n == 0 then (r, [])
    else
      var v := ReadEndpoints(r, n - 1);
      if v.0.ok then ReadEndpoint(v.0, v.1) else v
  }

  lemma {:induction false} TopicsStop(r: Rest, i: nat, n: nat)
    requires i <= n && !ReadTopics(r, i).0.ok
    ensures ReadTopics(r, n) == ReadTopics(r, i)
  {
    if i < n { TopicsStop(r, i, n - 1); }
  }

  lemma {:induction false} EndpointsStop(r: Rest, i: nat, n: nat)
    requires i <= n && !ReadEndpoints(r, i).0.ok
    ensures ReadEndpoints(r, n) == ReadEndpoints(r, i)
  {
    if i < n { EndpointsStop(r, i, n - 1); }
  }

  function ReadWill(r: Rest): (v: (Rest, Option<Will>)) {
    var (qos, r1) := U8(r);
    var (retain, r2) := U8(r1);
    var (topic, r3) := ReadStr16(r2);
    ReadWillPayload(r3, qos, retain, topic)
  }

  function ReadWillPayload(r: Rest, qos: uint8, retain: uint8, topic: Bytes): (v: (Rest, Option<Will>)) {
    var (n, q) := U32(r);
    if !q.ok then (q, None)
    else if !Has(q, n) then (Failed(q), None)
    else (Skip(q, n), Some(Will(qos, retain != 0, topic, q.bytes[..n])))
  }

  /** Everything behind the flags byte. */
  function ReadBody(r: Rest, id: uint16, hasWill: bool): (v: (Rest, Peer)) {
    var (name, r1) := ReadStr8(r);
    var (host, r2) := ReadStr8(r1);
    ReadLists(r2, Peer(id, name, host, [], [], [], None), hasWill)
  }

  /** Topics, endpoints and will, added to a peer known by name. */
  function ReadLists(r: Rest, peer: Peer, hasWill: bool): (v: (Rest, Peer)) {
    var (topicCount, r3) := U8(r);
    var (r4, topics) := ReadTopics(r3, topicCount);
    var (epCount, r5) := U8(r4);
    var (r6, endpoints) := ReadEndpoints(r5, epCount);
    var (r7, will) := if hasWill then ReadWill(r6) else (r6, None);
    (r7, peer.(subscribed := topics.subscribed, published := topics.published, endpoints := endpoints, will := will))
  }

  function ReadAll(r: Rest, domain: uint8): (v: (Rest, Option<Peer>)) {
    var (id, r1) := U16(r);
    var (d, r2) := U8(r1);
    if !r2.ok || d != domain then (Failed(r2), None)
    else
      var (flags, r3) := U8(r2);
      var (q, peer) := ReadBody(r3, id, flags % 2 == 1);
      (q, if q.ok then Some(peer) else None)
  }

  function Parsed(data: Bytes, domain: uint8): (p: Option<Peer>) {
    ReadAll(Rest(data, true), domain).1
  }

  // ---------------------------------------------------------------- reading in place

  class Reader {
    const p: Bytes
    var off: nat
    var ok: bool

    ghost predicate Valid()
      reads this
    {
      off <= |p|
    }

    function Left(): (r: Rest)
      requires Valid()
      reads this
    {
      Rest(p[off..], ok)
    }

    constructor (data: Bytes)
      ensures Valid() && p == data && Left() == Rest(data, true)
    {
      p := data;
      off, ok := 0, true;
    }

    method Need(n: nat) returns (has: bool)
      requires Valid()
      modifies `ok
      ensures Valid() && has == Has(old(Left()), n) && Left() == if has then old(Left()) else Failed(old(Left()))
    {
      if n > |p| || off > |p| - n {
        ok := false;
        return false;
      }
      return true;
    }

    method ReadU8() returns (v: uint8)
      requires Valid()
      modifies this
      ensures Valid() && (v, Left()) == U8(old(Left()))
    {
      var has := Need(1);
      if !has { return 0; }
      v := p[off];
      off := off + 1;
    }

    method ReadU16() returns (v: uint16)
      requires Valid()
      modifies this
      ensures Valid() && (v, Left()) == U16(old(Left()))
    {
      var has := Need(2);
      if !has { return 0; }
      v := Word2(p[off], p[off + 1]);
      off := off + 2;
    }

    method ReadU32() returns (v: uint32)
      requires Valid()
      modifies this
      ensures Valid() && (v, Left()) == U32(old(Left()))
    {
      var has := Need(4);
      if !has { return 0; }
      v := Word4(p[off], p[off + 1], p[off + 2], p[off + 3]);
      off := off + 4;
    }

    method ReadChars(n: nat) returns (s: Bytes)
      requires Valid()
      modifies this
      ensures Valid() && (s, Left()) == Chars(old(Left()), n)
    {
      var has := Need(n);
      if !has { return []; }
      s := p[off..off + n];
      assert p[off..][..n] == s && p[off..][n..] == p[off + n..];
      off := off + n;
    }

    method ReadShort() returns (s: Bytes)
      requires Valid()
      modifies this
      ensures Valid() && (s, Left()) == ReadStr8(old(Left()))
    {
      var n := ReadU8();
      s := ReadChars(n);
    }

    method ReadLong() returns (s: Bytes)
      requires Valid()
      modifies this
      ensures Valid() && (s, Left()) == ReadStr16(old(Left()))
    {
      var n := ReadU16();
      s := ReadChars(n);
    }
  }

  method ParseTopics(r: Reader, topicCount: uint8) returns (t: Topics)
    requires r.Valid()
    modifies r
    ensures r.Valid() && (r.Left(), t) == ReadTopics(old(r.Left()), topicCount)
  {
    t := Topics([], []);
    ghost var start := r.Left();
    var i := 0;
    while i < topicCount && r.ok
      invariant 0 <= i <= topicCount && r.Valid()
      invariant (r.Left(), t) == ReadTopics(start, i)
      decreases topicCount - i
    {
      i := i + 1;
      var role := r.ReadU8();
      var topic := r.ReadLong();
      if !r.ok { break; }
      t := Filed(t, role, topic);
    }
    if !r.ok { TopicsStop(start, i, topicCount); }
  }

  method ParseEndpoints(r: Reader, epCount: uint8) returns (es: seq<Endpoint>)
    requires r.Valid()
    modifies r
    ensures r.Valid() && (r.Left(), es) == ReadEndpoints(old(r.Left()), epCount)
  {
    es := [];
    ghost var start := r.Left();
    var i := 0;
    while i < epCount && r.ok
      invariant 0 <= i <= epCount && r.Valid()
      invariant (r.Left(), es) == ReadEndpoints(start, i)
      decreases epCount - i
    {
      es := ParseEndpoint(r, es);
      i := i + 1;
    }
    if !r.ok { EndpointsStop(start, i, epCount); }
  }

  method ParseEndpoint(r: Reader, before: seq<Endpoint>) returns (es: seq<Endpoint>)
    requires r.Valid()
    modifies r
    ensures r.Valid() && (r.Left(), es) == ReadEndpoint(old(r.Left()), before)
  {
    var transport := r.ReadShort();
    var address := r.ReadShort();
    var port := r.ReadU16();
    es := if r.ok then before + [Endpoint(transport, address, port)] else before;
  }

  method ParseWill(r: Reader) returns (will: Option<Will>)
    requires r.Valid()
    modifies r
    ensures r.Valid() && (r.Left(), will) == ReadWill(old(r.Left()))
  {
    var qos := r.ReadU8();
    var retain := r.ReadU8();
    var topic := r.ReadLong();
    var n := r.ReadU32();
    if !r.ok { return None; }
    var has := r.Need(n);
    if !has { return None; }
    var payload := r.ReadChars(n);
    will := Some(Will(qos, retain != 0, topic, payload));
  }

  method ParseBody(r: Reader, id: uint16, hasWill: bool) returns (peer: Peer)
    requires r.Valid()
    modifies r
    ensures r.Valid() && (r.Left(), peer) == ReadBody(old(r.Left()), id, hasWill)
  {
    var name := r.ReadShort();
    var host := r.ReadShort();
    peer := ParseLists(r, Peer(id, name, host, [], [], [], None), hasWill);
  }

  method ParseLists(r: Reader, named: Peer, hasWill: bool) returns (peer: Peer)
    requires r.Valid()
    modifies r
    ensures r.Valid() && (r.Left(), peer) == ReadLists(old(r.Left()), named, hasWill)
  {
    var topicCount := r.ReadU8();
    var topics := ParseTopics(r, topicCount);
    var epCount := r.ReadU8();
    var endpoints := ParseEndpoints(r, epCount);
    var will: Option<Will> := None;
    if hasWill { will := ParseWill(r); }
    peer := named.(subscribed := topics.subscribed, published := topics.published, endpoints := endpoints, will := will);
  }

  /** Takes a received payload apart; None for malformed ones and for other domains. */
  method Parse(data: Bytes, domain: uint8) returns (peer: Option<Peer>)
    ensures peer == Parsed(data, domain)
  {
    var r := new Reader(data);
    var id := r.ReadU16();
    var d := r.ReadU8();
    if !r.ok || d != domain { return None; }
    var flags := r.ReadU8();
    var body := ParseBody(r, id, flags % 2 == 1);
    return if r.ok then Some(body) else None;
  }
}
