/** What the wire format of MessageCodec guarantees: it can be read back, and short bursts of errors are noticed. */
module CodecSafety {
  import opened Words
  import opened Crc32
  import opened MessageCodec

  // ---------------------------------------------------------------- reading back

  lemma SliceOf(a: Bytes, rest: Bytes, from: nat, n: nat)
    requires from + n <= |a|
    ensures Slice(a + rest, from, n) == Slice(a, from, n)
  {
  }

  function Low(m: Message, withTs: bool, withCrc: bool): (b: Bytes)
    requires WithinLimits(m)
    ensures |b| == HEADER_BASE_SIZE
  {
    Preamble(m) + Fields(m, withTs, withCrc)
  }

  /** The single bytes of the header. */
  lemma LowBytes(m: Message, withTs: bool, withCrc: bool)
    requires WithinLimits(m)
    ensures var b := Low(m, withTs, withCrc);
            b[2] == VERSION && b[3] == m.msgType && b[4] == HdrFlags(withTs, withCrc) &&
            b[5] == m.qosLevel && b[6] == m.flags && b[7] == m.serializerId
  {
  }

  /** The wider fields of the header, as bytes. */
  lemma LowSlices(m: Message, withTs: bool, withCrc: bool)
    requires WithinLimits(m)
    ensures var b := Low(m, withTs, withCrc);
            Slice(b, 0, 2) == Le(MAGIC, 2) && Slice(b, 8, 2) == Le(m.sourceId, 2) && Slice(b, 10, 2) == Le(m.destId, 2) &&
            Slice(b, 12, 2) == Le(|m.topic|, 2) && Slice(b, 14, 4) == Le(m.sequenceId, 4) &&
            Slice(b, 18, 4) == Le(m.correlationId, 4) && Slice(b, 22, 4) == Le(|m.payload|, 4)
  {
    JoinFields(m, withTs, withCrc);
    var p := Preamble(m) + [HdrFlags(withTs, withCrc), m.qosLevel, m.flags, m.serializerId];
    assert p[..2] == Le(MAGIC, 2);
    SevenFields(p, Le(m.sourceId, 2), Le(m.destId, 2), Le(|m.topic|, 2), Le(m.sequenceId, 4), Le(m.correlationId, 4), Le(|m.payload|, 4));
  }

  lemma SevenFields(p: Bytes, a: Bytes, b: Bytes, c: Bytes, d: Bytes, e: Bytes, f: Bytes)
    requires |p| == 8 && |a| == |b| == |c| == 2 && |d| == |e| == |f| == 4
    ensures var all := p + a + b + c + d + e + f;
            all[..2] == p[..2] && all[8..10] == a && all[10..12] == b && all[12..14] == c &&
            all[14..18] == d && all[18..22] == e && all[22..26] == f
  {
  }

  predicate HeaderReads(data: Bytes, m: Message, withTs: bool, withCrc: bool) {
    |data| >= HEADER_BASE_SIZE &&
    data[2] == VERSION && data[3] == m.msgType && data[4] == HdrFlags(withTs, withCrc) &&
    data[5] == m.qosLevel && data[6] == m.flags && data[7] == m.serializerId &&
    FromLe(Slice(data, 0, 2)) == MAGIC && FromLe(Slice(data, 8, 2)) == m.sourceId &&
    FromLe(Slice(data, 10, 2)) == m.destId && FromLe(Slice(data, 12, 2)) == |m.topic| &&
    FromLe(Slice(data, 14, 4)) == m.sequenceId && FromLe(Slice(data, 18, 4)) == m.correlationId &&
    FromLe(Slice(data, 22, 4)) == |m.payload|
  }

  /** Every field of the header is read back, whatever follows it. */
  lemma LowReadBack(m: Message, withTs: bool, withCrc: bool, rest: Bytes)
    requires WithinLimits(m)
    ensures HeaderReads(Low(m, withTs, withCrc) + rest, m, withTs, withCrc)
  {
    var low := Low(m, withTs, withCrc);
    LowBytes(m, withTs, withCrc);
    LowSlices(m, withTs, withCrc);
    Ranges();
    SliceOf(low, rest, 0, 2);   FromLeLe(MAGIC, 2);
    SliceOf(low, rest, 8, 2);   FromLeLe(m.sourceId, 2);
    SliceOf(low, rest, 10, 2);  FromLeLe(m.destId, 2);
    SliceOf(low, rest, 12, 2);  FromLeLe(|m.topic|, 2);
    SliceOf(low, rest, 14, 4);  FromLeLe(m.sequenceId, 4);
    SliceOf(low, rest, 18, 4);  FromLeLe(m.correlationId, 4);
    SliceOf(low, rest, 22, 4);  FromLeLe(|m.payload|, 4);
  }

  /** The pieces of a packet behind its fixed header. */
  lemma PiecesReadBack(low: Bytes, stamp: Bytes, crc: Bytes, topic: Bytes, payload: Bytes, trailing: Bytes)
    requires |low| == HEADER_BASE_SIZE
    ensures var data := low + stamp + crc + topic + payload + trailing;
            var size := |low| + |stamp| + |crc|;
            Slice(data, |low|, |stamp|) == stamp && Slice(data, |low| + |stamp|, |crc|) == crc &&
            Slice(data, size, |topic|) == topic && Slice(data, size + |topic|, |payload|) == payload &&
            data[4..|low| + |stamp|] == low[4..] + stamp && data[size..size + |topic| + |payload|] == topic + payload
  {
  }

  function Trailer(withTs: bool, now: uint64): (t: uint64) {
    if withTs then now else 0
  }

  function SentChecksum(m: Message, withCrc: bool, now: uint64): (c: uint32)
    requires WithinLimits(m)
  {
    if withCrc then Checksum(CoveredHead(m, withCrc, now) + (m.topic + m.payload)) else 0
  }

  /** The packet as its six pieces. */
  lemma Pieces(m: Message, withCrc: bool, now: uint64)
    requires WithinLimits(m)
    ensures var withTs := IsDataMsg(m.msgType);
            Encoded(m, withCrc, now) ==
              Low(m, withTs, withCrc) + Stamp(withTs, now) +
              Crc(CoveredHead(m, withCrc, now) + (m.topic + m.payload), withCrc) + m.topic + m.payload
  {
    var withTs := IsDataMsg(m.msgType);
    JoinBody(CoveredHead(m, withCrc, now), m.topic, m.payload);
    JoinBody(Preamble(m), Fields(m, withTs, withCrc), Stamp(withTs, now));
  }

  lemma LayoutHeader(m: Message, withCrc: bool, now: uint64, data: Bytes)
    requires WithinLimits(m) && Encoded(m, withCrc, now) <= data
    ensures HeaderReads(data, m, IsDataMsg(m.msgType), withCrc)
  {
    var withTs := IsDataMsg(m.msgType);
    var low := Low(m, withTs, withCrc);
    Pieces(m, withCrc, now);
    assert low <= data;
    assert data == low + data[|low|..];
    LowReadBack(m, withTs, withCrc, data[|low|..]);
  }

  lemma LayoutBody(m: Message, withCrc: bool, now: uint64, data: Bytes)
    requires WithinLimits(m) && Encoded(m, withCrc, now) <= data
    ensures BodyReads(data, m, withCrc, now)
  {
    var withTs := IsDataMsg(m.msgType);
    var low, stamp, trailing := Low(m, withTs, withCrc), Stamp(withTs, now), data[|Encoded(m, withCrc, now)|..];
    var crc := Crc(CoveredHead(m, withCrc, now) + (m.topic + m.payload), withCrc);
    Pieces(m, withCrc, now);
    assert data == Encoded(m, withCrc, now) + trailing;
    PiecesReadBack(low, stamp, crc, m.topic, m.payload, trailing);
    assert low[4..] == Fields(m, withTs, withCrc);
  }

  /** The bytes of m are at the start of the buffer. */
  lemma Layout(m: Message, withCrc: bool, now: uint64, data: Bytes)
    requires WithinLimits(m) && Encoded(m, withCrc, now) <= data
    ensures HeaderReads(data, m, IsDataMsg(m.msgType), withCrc) && BodyReads(data, m, withCrc, now)
  {
    LayoutHeader(m, withCrc, now, data);
    LayoutBody(m, withCrc, now, data);
  }

  predicate BodyReads(data: Bytes, m: Message, withCrc: bool, now: uint64)
    requires WithinLimits(m)
  {
    var withTs := IsDataMsg(m.msgType);
    var head, body := CoveredHead(m, withCrc, now), m.topic + m.payload;
    var pos := HEADER_BASE_SIZE + |Stamp(withTs, now)|;
    var size := pos + |Crc(head + body, withCrc)|;
    |data| >= size + |body| && data[4..pos] == head && data[size..size + |body|] == body &&
    Slice(data, size, |m.topic|) == m.topic && Slice(data, size + |m.topic|, |m.payload|) == m.payload &&
    Slice(data, HEADER_BASE_SIZE, |Stamp(withTs, now)|) == Stamp(withTs, now) &&
    Slice(data, pos, |Crc(head + body, withCrc)|) == Crc(head + body, withCrc)
  }

  lemma HeaderAccepted(data: Bytes, m: Message, withTs: bool, withCrc: bool)
    requires HeaderReads(data, m, withTs, withCrc) && |data| >= HeaderSize(HdrFlags(withTs, withCrc))
    ensures HasHeader(data) && TopicLen(data) == |m.topic| && PayloadLen(data) == |m.payload|
    ensures HasTs(data[4]) == withTs && HasCrc(data[4]) == withCrc
  {
  }

  /** Where the body is, in terms of the flags. */
  lemma BodyPlaced(data: Bytes, m: Message, withCrc: bool, now: uint64)
    requires WithinLimits(m) && BodyReads(data, m, withCrc, now)
    ensures var flags := HdrFlags(IsDataMsg(m.msgType), withCrc);
            var pos, size := ChecksumPos(flags), HeaderSize(flags);
            |data| >= size + |m.topic| + |m.payload| && data[4..pos] == CoveredHead(m, withCrc, now) &&
            data[size..size + |m.topic| + |m.payload|] == m.topic + m.payload &&
            (withCrc ==> Slice(data, pos, 4) == Le(SentChecksum(m, withCrc, now), 4))
  {
  }

  lemma Accepted(data: Bytes, m: Message, withCrc: bool, now: uint64)
    requires WithinLimits(m) && HeaderReads(data, m, IsDataMsg(m.msgType), withCrc) && BodyReads(data, m, withCrc, now)
    ensures Acceptable(data)
  {
    BodyPlaced(data, m, withCrc, now);
    HeaderAccepted(data, m, IsDataMsg(m.msgType), withCrc);
    Ranges();
    if withCrc { FromLeLe(SentChecksum(m, withCrc, now), 4); }
  }

  predicate StringsRead(data: Bytes, m: Message)
    requires Acceptable(data)
  {
    var size := HeaderSize(data[4]);
    Slice(data, size, TopicLen(data)) == m.topic && Slice(data, size + TopicLen(data), PayloadLen(data)) == m.payload
  }

  lemma StringsReadBack(data: Bytes, m: Message, withCrc: bool, now: uint64)
    requires WithinLimits(m) && HeaderReads(data, m, IsDataMsg(m.msgType), withCrc) && BodyReads(data, m, withCrc, now)
    requires Acceptable(data)
    ensures StringsRead(data, m)
  {
  }

  predicate TailReads(data: Bytes, now: uint64, checksum: uint32)
    requires Acceptable(data)
  {
    (if HasTs(data[4]) then FromLe(Slice(data, HEADER_BASE_SIZE, 8)) == now else now == 0) &&
    (if HasCrc(data[4]) then FromLe(Slice(data, ChecksumPos(data[4]), 4)) == checksum else checksum == 0)
  }

  lemma TailSlices(data: Bytes, m: Message, withCrc: bool, now: uint64)
    requires WithinLimits(m) && HeaderReads(data, m, IsDataMsg(m.msgType), withCrc) && BodyReads(data, m, withCrc, now)
    requires Acceptable(data)
    ensures IsDataMsg(m.msgType) ==> Slice(data, HEADER_BASE_SIZE, 8) == Le(now, 8)
    ensures withCrc ==> Slice(data, ChecksumPos(data[4]), 4) == Le(SentChecksum(m, withCrc, now), 4)
  {
  }

  lemma TailReadBack(data: Bytes, m: Message, withTs: bool, withCrc: bool, now: uint64, checksum: uint32)
    requires HeaderReads(data, m, withTs, withCrc) && Acceptable(data)
    requires withTs ==> Slice(data, HEADER_BASE_SIZE, 8) == Le(now, 8)
    requires withCrc ==> Slice(data, ChecksumPos(data[4]), 4) == Le(checksum, 4)
    ensures TailReads(data, Trailer(withTs, now), if withCrc then checksum else 0)
  {
    Ranges();
    FromLeLe(now, 8);
    FromLeLe(checksum, 4);
  }

  lemma Assembled(data: Bytes, m: Message, withTs: bool, withCrc: bool, now: uint64, checksum: uint32)
    requires HeaderReads(data, m, withTs, withCrc) && Acceptable(data) && StringsRead(data, m) && TailReads(data, now, checksum)
    ensures Decoded(data) == Some(Packet(m, now, checksum))
  {
  }

  /** Decoding an encoded packet returns every field, whatever bytes follow it in the buffer. */
  lemma RoundTrip(m: Message, withCrc: bool, now: uint64, trailing: Bytes)
    requires WithinLimits(m)
    ensures Decoded(Encoded(m, withCrc, now) + trailing) ==
            Some(Packet(m, Trailer(IsDataMsg(m.msgType), now), SentChecksum(m, withCrc, now)))
  {
    var data := Encoded(m, withCrc, now) + trailing;
    Layout(m, withCrc, now, data);
    Accepted(data, m, withCrc, now);
    StringsReadBack(data, m, withCrc, now);
    TailSlices(data, m, withCrc, now);
    TailReadBack(data, m, IsDataMsg(m.msgType), withCrc, now, SentChecksum(m, withCrc, now));
    Assembled(data, m, IsDataMsg(m.msgType), withCrc, Trailer(IsDataMsg(m.msgType), now), SentChecksum(m, withCrc, now));
  }

  predicate Stamped(msgType: uint8) {
    msgType == 0x01 || msgType == 0x04 || msgType == 0x05
  }

  /** PUBLISH, REQUEST and REPLY, and no other message, carry a time stamp: flagged and eight bytes long. */
  lemma StampedIff(m: Message, withCrc: bool, now: uint64)
    requires WithinLimits(m)
    ensures var p := Encoded(m, withCrc, now);
            |p| == (if Stamped(m.msgType) then 34 else 26) + (if withCrc then 4 else 0) + |m.topic| + |m.payload| &&
            p[4] % 2 == (if Stamped(m.msgType) then 1 else 0) && p[4] / 2 == (if withCrc then 1 else 0)
  {
    Pieces(m, withCrc, now);
    LowBytes(m, IsDataMsg(m.msgType), withCrc);
    FlagBits(IsDataMsg(m.msgType), withCrc);
  }

  lemma FlagBits(withTs: bool, withCrc: bool)
    ensures var f := HdrFlags(withTs, withCrc); f % 2 == (if withTs then 1 else 0) && f / 2 == (if withCrc then 1 else 0)
  {
  }

  /** And it is read back; other messages have none. */
  lemma StampReadBack(m: Message, withCrc: bool, now: uint64, trailing: Bytes)
    requires WithinLimits(m)
    ensures var r := Decoded(Encoded(m, withCrc, now) + trailing);
            r.Some? && r.value.timestamp == if Stamped(m.msgType) then now else 0
  {
    RoundTrip(m, withCrc, now, trailing);
  }

  /** v as n bytes, the least significant first. */
  predicate LittleEndian(b: Bytes, v: nat) {
    if |b| == 2 then v == b[0] as int + 0x100 * b[1] as int
    else |b| == 4 && v == b[0] as int + 0x100 * b[1] as int + 0x1_0000 * b[2] as int + 0x100_0000 * b[3] as int
  }

  lemma LeIsLittleEndian(b: Bytes, v: nat)
    requires |b| == 2 || |b| == 4
    requires FromLe(b) == v
    ensures LittleEndian(b, v)
  {
    if |b| == 2 { FromTwo(b); } else { FromFour(b); }
  }

  /** Where everything is in the header, byte by byte. */
  lemma WireLayout(m: Message, withCrc: bool, now: uint64)
    requires WithinLimits(m)
    ensures var p := Encoded(m, withCrc, now);
            |p| >= 26 && p[0] == 0xDC && p[1] == 0xEB && p[2] == 2 && p[3] == m.msgType &&
            p[5] == m.qosLevel && p[6] == m.flags && p[7] == m.serializerId &&
            LittleEndian(p[8..10], m.sourceId) && LittleEndian(p[10..12], m.destId) && LittleEndian(p[12..14], |m.topic|) &&
            LittleEndian(p[14..18], m.sequenceId) && LittleEndian(p[18..22], m.correlationId) &&
            LittleEndian(p[22..26], |m.payload|)
  {
    var p := Encoded(m, withCrc, now);
    LayoutHeader(m, withCrc, now, p);
    FieldsAt(p, m, IsDataMsg(m.msgType), withCrc);
  }

  /** And behind it: time stamp, checksum, topic, payload. */
  lemma WireTail(m: Message, withCrc: bool, now: uint64)
    requires WithinLimits(m)
    ensures var p := Encoded(m, withCrc, now);
            var size := (if Stamped(m.msgType) then 34 else 26) + if withCrc then 4 else 0;
            |p| == size + |m.topic| + |m.payload| && p[size..] == m.topic + m.payload &&
            (Stamped(m.msgType) ==> p[26..34] == Le(now, 8)) &&
            (withCrc ==> p[size - 4..size] == Le(SentChecksum(m, withCrc, now), 4))
  {
    var withTs := IsDataMsg(m.msgType);
    Pieces(m, withCrc, now);
    PiecesReadBack(Low(m, withTs, withCrc), Stamp(withTs, now), Crc(CoveredHead(m, withCrc, now) + (m.topic + m.payload), withCrc),
                   m.topic, m.payload, []);
    assert Encoded(m, withCrc, now) + [] == Encoded(m, withCrc, now);
  }

  lemma FieldsAt(p: Bytes, m: Message, withTs: bool, withCrc: bool)
    requires HeaderReads(p, m, withTs, withCrc)
    ensures p[0] == 0xDC && p[1] == 0xEB
    ensures LittleEndian(p[8..10], m.sourceId) && LittleEndian(p[10..12], m.destId) && LittleEndian(p[12..14], |m.topic|)
    ensures LittleEndian(p[14..18], m.sequenceId) && LittleEndian(p[18..22], m.correlationId) && LittleEndian(p[22..26], |m.payload|)
  {
    LeIsLittleEndian(p[0..2], MAGIC);
    LeIsLittleEndian(p[8..10], m.sourceId);
    LeIsLittleEndian(p[10..12], m.destId);
    LeIsLittleEndian(p[12..14], |m.topic|);
    LeIsLittleEndian(p[14..18], m.sequenceId);
    LeIsLittleEndian(p[18..22], m.correlationId);
    LeIsLittleEndian(p[22..26], |m.payload|);
  }

  /** The checksum of a packet is the CRC-32 everybody computes. */
  lemma ChecksumIsStandard()
    ensures Checksum([0xFF, 0xFF, 0xFF, 0xFF, 0x80]) == 0x12477CDF
  {
    KnownChecksum();
  }

  /** Which buffers are packets: magic, version, enough bytes for what the header says, and the checksum if there is one. */
  lemma AcceptedIff(p: Bytes)
    ensures Decoded(p).Some? <==>
      |p| >= 26 && p[0] == 0xDC && p[1] == 0xEB && p[2] == 2 &&
      var size := 26 + (if p[4] % 2 == 1 then 8 else 0) + (if p[4] / 2 % 2 == 1 then 4 else 0);
      |p| >= size && |p| >= size + LengthsOf(p) &&
      (p[4] / 2 % 2 == 1 ==>
        Checksum(p[4..size - 4] + p[size..size + LengthsOf(p)]) == FromLe(p[size - 4..size]))
  {
    if |p| >= 26 { MagicBytes(p); }
  }

  lemma MagicBytes(p: Bytes)
    requires |p| >= 26
    ensures FromLe(Slice(p, 0, 2)) == MAGIC <==> p[0] == 0xDC && p[1] == 0xEB
  {
    FromTwo(Slice(p, 0, 2));
  }

  /** What can be encoded at all. */
  lemma LimitsAre(m: Message)
    ensures WithinLimits(m) <==> |m.topic| <= 65_535 && |m.payload| <= 67_108_864
  {
  }

  /** Two messages with the same bytes are the same message: the format is unambiguous. */
  lemma EncodedInjective(m: Message, n: Message, withCrc: bool, alsoCrc: bool, now: uint64, later: uint64)
    requires WithinLimits(m) && WithinLimits(n)
    requires Encoded(m, withCrc, now) <= Encoded(n, alsoCrc, later)
    ensures m == n
  {
    var trailing := Remainder(Encoded(m, withCrc, now), Encoded(n, alsoCrc, later));
    RoundTrip(m, withCrc, now, trailing);
    RoundTrip(n, alsoCrc, later, []);
  }

  /** What follows a prefix, with both forms of the whole. */
  lemma Remainder(a: Bytes, b: Bytes) returns (rest: Bytes)
    requires a <= b
    ensures a + rest == b + []
  {
    rest := b[|a|..];
  }

  // ---------------------------------------------------------------- error detection

  /** Byte j is one of four consecutive covered bytes, the first of which has index k among the covered ones. */
  predicate InBurst(data: Bytes, k: nat, j: int)
    requires HasHeader(data) && |data| >= Expected(data)
  {
    || (4 <= j < ChecksumPos(data[4]) && k <= j - 4 < k + 4)
    || (HeaderSize(data[4]) <= j < Expected(data) && k <= j - 8 < k + 4)
  }

  /** q is p with a burst of errors, up to four covered bytes long. */
  predicate Burst(p: Bytes, q: Bytes, k: nat)
    requires Acceptable(p)
  {
    |p| == |q| && p != q && k + 4 <= |Covered(p)| && forall j :: 0 <= j < |p| && !InBurst(p, k, j) ==> p[j] == q[j]
  }

  /** The flags and lengths, which say what is covered and where things are, survived. */
  predicate SameShape(p: Bytes, q: Bytes)
    requires HasHeader(p) && |p| == |q|
  {
    HasTs(p[4]) == HasTs(q[4]) && HasCrc(p[4]) == HasCrc(q[4]) &&
    Slice(p, 12, 2) == Slice(q, 12, 2) && Slice(p, 22, 4) == Slice(q, 22, 4)
  }

  lemma BurstKeepsShape(p: Bytes, q: Bytes, k: nat)
    requires Acceptable(p) && HasCrc(p[4]) && Burst(p, q, k) && SameShape(p, q)
    ensures HasHeader(q) && Expected(q) == Expected(p) && Slice(q, ChecksumPos(q[4]), 4) == Slice(p, ChecksumPos(p[4]), 4)
  {
    assert Slice(p, 0, 2) == Slice(q, 0, 2);
  }

  lemma BurstInCovered(p: Bytes, q: Bytes, k: nat)
    requires Acceptable(p) && HasCrc(p[4]) && Burst(p, q, k) && SameShape(p, q)
    requires HasHeader(q) && Expected(q) == Expected(p)
    ensures DifferInWindow(Covered(p), Covered(q), k)
  {
    var a, b := Covered(p), Covered(q);
    var pos, size, end := ChecksumPos(p[4]), HeaderSize(p[4]), Expected(p);
    CoveredBytes(p);
    CoveredBytes(q);
    assert forall i | 0 <= i < |a| && !(k <= i < k + 4) :: a[i] == b[i] by {
      forall i | 0 <= i < |a| && !(k <= i < k + 4)
        ensures a[i] == b[i]
      {
        var j := CoveredAt(p, i);
        assert !InBurst(p, k, j);
      }
    }
    assert a[..k] == b[..k] && a[k + 4..] == b[k + 4..];
    if a == b { BurstSeen(p, q, k); }
  }

  /** Where the i-th covered byte is. */
  function CoveredAt(data: Bytes, i: nat): (j: nat)
    requires HasHeader(data)
  {
    if i < ChecksumPos(data[4]) - 4 then i + 4 else i + 8
  }

  lemma CoveredBytes(data: Bytes)
    requires HasHeader(data) && |data| >= Expected(data) && HasCrc(data[4])
    ensures |Covered(data)| == Expected(data) - 8
    ensures forall i :: 0 <= i < Expected(data) - 8 ==> Covered(data)[i] == data[CoveredAt(data, i)]
  {
  }

  lemma BurstSeen(p: Bytes, q: Bytes, k: nat)
    requires Acceptable(p) && HasCrc(p[4]) && Burst(p, q, k) && SameShape(p, q)
    requires HasHeader(q) && Expected(q) == Expected(p)
    ensures Covered(p) != Covered(q)
  {
    var j :| 0 <= j < |p| && p[j] != q[j];
    assert InBurst(p, k, j);
    var i := if j < ChecksumPos(p[4]) then j - 4 else j - 8;
    CoveredBytes(p);
    CoveredBytes(q);
    assert Covered(p)[i] == p[j] && Covered(q)[i] == q[j];
  }

  /**
    A packet whose covered bytes were hit by one burst of at most four bytes is never accepted, as long as its
    flags and length fields survived. They are covered bytes too; what becomes of bursts that hit them is below.
  */
  lemma BurstRejected(p: Bytes, q: Bytes, k: nat)
    requires Acceptable(p) && HasCrc(p[4]) && Burst(p, q, k) && SameShape(p, q)
    ensures Decoded(q) == None
  {
    BurstKeepsShape(p, q, k);
    BurstInCovered(p, q, k);
    WindowDetected(ONES, Covered(p), Covered(q), k);
  }

  /** Byte ranges whose contents do not say where other fields are. */
  predicate PlainRange(data: Bytes, from: nat, to: nat)
    requires Acceptable(data)
  {
    || (5 <= from <= to <= 12)
    || (14 <= from <= to <= 22)
    || (HEADER_BASE_SIZE <= from <= to <= ChecksumPos(data[4]))
    || (HeaderSize(data[4]) <= from <= to <= Expected(data))
  }

  /** In particular, altering any bytes within four positions of one field range is noticed. */
  lemma AlterationRejected(p: Bytes, q: Bytes, from: nat, to: nat)
    requires Acceptable(p) && HasCrc(p[4]) && PlainRange(p, from, to) && to - from <= 4
    requires |p| == |q| && p != q && p[..from] == q[..from] && p[to..] == q[to..]
    ensures Decoded(q) == None
  {
    assert forall j :: 0 <= j < from ==> p[j] == p[..from][j] && q[j] == q[..from][j];
    assert forall j :: to <= j < |p| ==> p[j] == p[to..][j - to] && q[j] == q[to..][j - to];
    CoveredBytes(p);
    var first := if from < ChecksumPos(p[4]) then from - 4 else from - 8;
    var k := if first + 4 <= |Covered(p)| then first else |Covered(p)| - 4;
    assert Slice(p, 12, 2) == Slice(q, 12, 2) && Slice(p, 22, 4) == Slice(q, 22, 4);
    BurstRejected(p, q, k);
  }

  // ---------------------------------------------------------------- errors that go unnoticed

  /** A burst that clears the checksum flag is accepted exactly if the buffer is long enough for what the header then says. */
  lemma BurstClearsFlag(p: Bytes, q: Bytes, k: nat)
    requires Acceptable(p) && HasCrc(p[4]) && Burst(p, q, k) && !HasCrc(q[4])
    ensures Decoded(q).Some? <==> |q| >= HeaderSize(q[4]) && |q| >= HeaderSize(q[4]) + LengthsOf(q)
  {
    assert Slice(q, 0, 2) == Slice(p, 0, 2) && q[2] == p[2];
  }

  /** The two length fields together. */
  function LengthsOf(data: Bytes): (n: nat)
    requires |data| >= HEADER_BASE_SIZE
  {
    FromLe(Slice(data, 12, 2)) + FromLe(Slice(data, 22, 4))
  }

  /** One flipped bit is enough: without the checksum flag, the same buffer is accepted, its checksum taken for content. */
  lemma ClearedFlagAccepted(p: Bytes)
    requires Acceptable(p) && HasCrc(p[4])
    ensures var q := p[4 := p[4] - 2]; Burst(p, q, 0) && Decoded(q).Some?
  {
    var q := p[4 := p[4] - 2];
    CoveredBytes(p);
    assert !HasCrc(q[4]) && HasTs(q[4]) == HasTs(p[4]);
    assert Slice(q, 12, 2) == Slice(p, 12, 2) && Slice(q, 22, 4) == Slice(p, 22, 4);
    BurstClearsFlag(p, q, 0);
  }

  /** m with four more payload bytes, chosen so that the longer message has the same checksum. */
  function Lengthened(m: Message, now: uint64): (long: Message)
    requires WithinLimits(m) && |m.payload| + 4 <= MAX_PAYLOAD_LEN
    ensures WithinLimits(long) && |long.payload| == |m.payload| + 4 && long == m.(payload := long.payload) && m.payload <= long.payload
  {
    var zeros := m.(payload := m.payload + [0, 0, 0, 0]);
    m.(payload := m.payload + Steering(
      Update(ONES, CoveredHead(zeros, true, now) + m.topic + m.payload), Update(ONES, CoveredHead(m, true, now) + m.topic + m.payload)))
  }

  /** Only the length field tells the two headers apart. */
  lemma HeadOfLengthened(m: Message, long: Message, now: uint64)
    requires WithinLimits(m) && WithinLimits(long) && long == m.(payload := long.payload)
    ensures var a, b := CoveredHead(m, true, now), CoveredHead(long, true, now);
            |a| == |b| >= 22 && a[..18] == b[..18] && a[22..] == b[22..] && a[18..22] == Le(|m.payload|, 4)
  {
    var withTs := IsDataMsg(m.msgType);
    var x, y := Fields(m, withTs, true), Fields(long, withTs, true);
    assert x[..18] == y[..18] && x[18..] == Le(|m.payload|, 4);
    assert CoveredHead(m, true, now)[22..] == Stamp(withTs, now) == CoveredHead(long, true, now)[22..];
  }

  lemma SameChecksum(m: Message, now: uint64)
    requires WithinLimits(m) && |m.payload| + 4 <= MAX_PAYLOAD_LEN
    ensures var long := Lengthened(m, now); SentChecksum(long, true, now) == SentChecksum(m, true, now)
  {
    var long := Lengthened(m, now);
    var zeros := m.(payload := m.payload + [0, 0, 0, 0]);
    var a, b := CoveredHead(m, true, now) + m.topic + m.payload, CoveredHead(zeros, true, now) + m.topic + m.payload;
    var tail := Steering(Update(ONES, b), Update(ONES, a));
    assert CoveredHead(long, true, now) == CoveredHead(zeros, true, now);
    JoinFour(CoveredHead(zeros, true, now), m.topic, m.payload, tail);
    JoinBody(CoveredHead(m, true, now), m.topic, m.payload);
    UpdateConcat(ONES, b, tail);
    SteeringReaches(Update(ONES, b), Update(ONES, a));
  }

  lemma JoinFour(a: Bytes, b: Bytes, c: Bytes, d: Bytes)
    ensures a + (b + (c + d)) == a + b + c + d
  {
  }

  /** The long packet with the payload length overwritten is the short packet and four more bytes. */
  lemma Shortened(m: Message, now: uint64)
    requires WithinLimits(m) && |m.payload| + 4 <= MAX_PAYLOAD_LEN
    ensures var long := Lengthened(m, now); var p := Encoded(long, true, now);
            |p| >= 26 && p[..22] + Le(|m.payload|, 4) + p[26..] == Encoded(m, true, now) + long.payload[|m.payload|..]
  {
    var long := Lengthened(m, now);
    var a, b := CoveredHead(m, true, now), CoveredHead(long, true, now);
    var crc := Le(SentChecksum(m, true, now), 4);
    SameChecksum(m, now);
    FormatOf(m, true, now);
    FormatOf(long, true, now);
    HeadOfLengthened(m, long, now);
    Splice(Preamble(m), a, b, crc, m.topic, m.payload, long.payload[|m.payload|..], Le(|m.payload|, 4));
    assert m.payload + long.payload[|m.payload|..] == long.payload;
  }

  lemma Splice(pre: Bytes, a: Bytes, b: Bytes, crc: Bytes, topic: Bytes, payload: Bytes, more: Bytes, field: Bytes)
    requires |pre| == 4 && |a| == |b| >= 22 && a[..18] == b[..18] && a[22..] == b[22..] && a[18..22] == field
    ensures var p := pre + b + crc + (topic + (payload + more));
            |p| >= 26 && p[..22] + field + p[26..] == pre + a + crc + (topic + payload) + more
  {
    var p := pre + b + crc + (topic + (payload + more));
    assert p[..22] == pre + a[..18] && p[26..] == a[22..] + crc + (topic + (payload + more));
    assert a == a[..18] + field + a[22..];
  }

  /**
    A burst on a length field can go unnoticed too: every message can be lengthened by four payload bytes such
    that the packet, with its payload length overwritten, is accepted as the shorter message.
  */
  lemma LengthBurstAccepted(m: Message, now: uint64)
    requires WithinLimits(m) && |m.payload| + 4 <= MAX_PAYLOAD_LEN
    ensures var p := Encoded(Lengthened(m, now), true, now);
            |p| >= 26 && Acceptable(p) && HasCrc(p[4]) &&
            var q := p[..22] + Le(|m.payload|, 4) + p[26..];
            Burst(p, q, 18) && Decoded(q).Some? && Decoded(q).value.message == m
  {
    var long := Lengthened(m, now);
    Shortened(m, now);
    RoundTrip(m, true, now, long.payload[|m.payload|..]);
    WholePacket(long, now);
    OtherLength(Encoded(long, true, now), |m.payload|, |long.payload|);
  }

  lemma WholePacket(m: Message, now: uint64)
    requires WithinLimits(m)
    ensures var p := Encoded(m, true, now); Acceptable(p) && HasCrc(p[4]) && FromLe(Slice(p, 22, 4)) == |m.payload|
  {
    var p := Encoded(m, true, now);
    Layout(m, true, now, p);
    Accepted(p, m, true, now);
    HeaderSays(p, m, IsDataMsg(m.msgType));
  }

  lemma HeaderSays(data: Bytes, m: Message, withTs: bool)
    requires HeaderReads(data, m, withTs, true)
    ensures HasCrc(data[4]) && FromLe(Slice(data, 22, 4)) == |m.payload|
  {
  }

  lemma OtherLength(p: Bytes, short: nat, long: nat)
    requires Acceptable(p) && HasCrc(p[4]) && short < long <= MAX_PAYLOAD_LEN && FromLe(Slice(p, 22, 4)) == long
    ensures Burst(p, p[..22] + Le(short, 4) + p[26..], 18)
  {
    var q := p[..22] + Le(short, 4) + p[26..];
    CoveredBytes(p);
    Ranges();
    FromLeLe(short, 4);
    assert Slice(q, 22, 4) == Le(short, 4);
    assert forall j :: 0 <= j < 22 ==> p[j] == q[j];
    assert forall j :: 26 <= j < |p| ==> p[j] == q[j];
  }

  /** The message type is outside the checksum: a packet whose type byte was altered is accepted as another message. */
  lemma TypeByteUnprotected(p: Bytes, v: uint8)
    requires Acceptable(p)
    ensures var packet := Decoded(p).value;
            Decoded(p[3 := v]) == Some(packet.(message := packet.message.(msgType := v)))
  {
    var q := p[3 := v];
    assert forall from: nat, n: nat | from + n <= |p| && (from + n <= 3 || from >= 4) :: Slice(q, from, n) == Slice(p, from, n);
    assert Covered(q) == Covered(p);
  }
}
