/**
  The wire format of src/core/message_codec.h: a 26-byte little-endian header, an optional timestamp and
  checksum, topic, payload. `Encoded` and `Decoded` say what the format is; the methods build and read it
  the way the code does.
*/
module MessageCodec {
  import opened Words
  import opened Crc32

  const MAGIC: uint16 := 0xEBDC
  const VERSION: uint8 := 2
  const MAX_TOPIC_LEN := 0xFFFF
  const MAX_PAYLOAD_LEN := 64 * 1024 * 1024
  const HEADER_BASE_SIZE := 26

  const PUBLISH: uint8 := 0x01
  const REQUEST: uint8 := 0x04
  const REPLY: uint8 := 0x05

  /** The arguments of an encoder and the clock reading it takes. */
  datatype Message = Message(
    msgType: uint8, qosLevel: uint8, flags: uint8, serializerId: uint8,
    sourceId: uint16, destId: uint16, sequenceId: uint32, correlationId: uint32,
    topic: Bytes, payload: Bytes)

  /** What a receiver learns besides the message. */
  datatype Packet = Packet(message: Message, timestamp: uint64, checksum: uint32)

  predicate IsDataMsg(msgType: uint8) {
    msgType == PUBLISH || msgType == REQUEST || msgType == REPLY
  }

  predicate WithinLimits(m: Message) {
    |m.topic| <= MAX_TOPIC_LEN && |m.payload| <= MAX_PAYLOAD_LEN
  }

  // ---------------------------------------------------------------- little-endian fields

  function Le(v: nat, n: nat): (b: Bytes)
    ensures |b| == n
    decreases v, n
  {
    if n == 0 then [] else [v % 0x100] + Le(v / 0x100, n - 1)
  }

  function FromLe(b: Bytes): (v: nat) {
    if b == [] then 0 else b[0] + 0x100 * FromLe(b[1..])
  }

  function Range(n: nat): (r: nat) {
    if n == 0 then 1 else 0x100 * Range(n - 1)
  }

  /** Reading back what was written. */
  lemma {:induction false} FromLeLe(v: nat, n: nat)
    requires v < Range(n)
    ensures FromLe(Le(v, n)) == v
    decreases n
  {
    if n > 0 {
      FromLeLe(v / 0x100, n - 1);
      assert Le(v, n)[1..] == Le(v / 0x100, n - 1);
    }
  }

  /** Writing back what was read. */
  lemma {:induction false} LeFromLe(b: Bytes)
    ensures Le(FromLe(b), |b|) == b && FromLe(b) < Range(|b|)
    decreases |b|
  {
    if b != [] {
      LeFromLe(b[1..]);
      var v := FromLe(b);
      assert v % 0x100 == b[0] && v / 0x100 == FromLe(b[1..]);
    }
  }

  lemma Ranges()
    ensures Range(1) == 0x100 && Range(2) == 0x1_0000 && Range(4) == WORD && Range(8) == 0x1_0000_0000_0000_0000
  {
    assert Range(3) == 0x100_0000;
    assert Range(5) == 0x100_0000_0000;
    assert Range(6) == 0x1_0000_0000_0000;
    assert Range(7) == 0x100_0000_0000_0000;
  }

  // ---------------------------------------------------------------- the format

  function HdrFlags(withTs: bool, withCrc: bool): (f: uint8) {
    (if withTs then 1 else 0) + (if withCrc then 2 else 0)
  }

  /** Bytes 0 to 3: what the checksum does not cover. */
  function Preamble(m: Message): (b: Bytes)
    ensures |b| == 4
  {
    Le(MAGIC, 2) + [VERSION, m.msgType]
  }

  /** Bytes 4 to 25. */
  function Fields(m: Message, withTs: bool, withCrc: bool): (b: Bytes)
    requires WithinLimits(m)
    ensures |b| == 22
  {
    [HdrFlags(withTs, withCrc), m.qosLevel, m.flags, m.serializerId] +
    Le(m.sourceId, 2) + Le(m.destId, 2) + Le(|m.topic|, 2) +
    Le(m.sequenceId, 4) + Le(m.correlationId, 4) + Le(|m.payload|, 4)
  }

  function Stamp(withTs: bool, now: uint64): (b: Bytes)
    ensures |b| == if withTs then 8 else 0
  {
    if withTs then Le(now, 8) else []
  }

  /** The checksum of the covered bytes: everything from byte 4 on except the checksum itself. */
  function Checksum(covered: Bytes): (c: uint32) {
    ONES - Update(ONES, covered)
  }

  function CoveredHead(m: Message, withCrc: bool, now: uint64): (b: Bytes)
    requires WithinLimits(m)
  {
    Fields(m, IsDataMsg(m.msgType), withCrc) + Stamp(IsDataMsg(m.msgType), now)
  }

  function Crc(covered: Bytes, withCrc: bool): (b: Bytes) {
    if withCrc then Le(Checksum(covered), 4) else []
  }

  function Encoded(m: Message, withCrc: bool, now: uint64): (b: Bytes)
    requires WithinLimits(m)
  {
    var head := CoveredHead(m, withCrc, now);
    Preamble(m) + head + Crc(head + m.topic + m.payload, withCrc) + m.topic + m.payload
  }

  function Slice(data: Bytes, from: nat, n: nat): (b: Bytes)
    requires from + n <= |data|
    ensures |b| == n
  {
    data[from..from + n]
  }

  predicate HasTs(hdrFlags: uint8) { hdrFlags % 2 == 1 }

  predicate HasCrc(hdrFlags: uint8) { (hdrFlags / 2) % 2 == 1 }

  function HeaderSize(hdrFlags: uint8): (n: nat) {
    HEADER_BASE_SIZE + (if HasTs(hdrFlags) then 8 else 0) + (if HasCrc(hdrFlags) then 4 else 0)
  }

  /** Where the checksum is, or would be. */
  function ChecksumPos(hdrFlags: uint8): (n: nat) {
    HEADER_BASE_SIZE + (if HasTs(hdrFlags) then 8 else 0)
  }

  predicate HasHeader(data: Bytes) {
    |data| >= HEADER_BASE_SIZE && FromLe(Slice(data, 0, 2)) == MAGIC && data[2] == VERSION &&
    |data| >= HeaderSize(data[4])
  }

  function TopicLen(data: Bytes): (n: nat)
    requires HasHeader(data)
  {
    FromLe(Slice(data, 12, 2))
  }

  function PayloadLen(data: Bytes): (n: nat)
    requires HasHeader(data)
  {
    FromLe(Slice(data, 22, 4))
  }

  function Expected(data: Bytes): (n: nat)
    requires HasHeader(data)
  {
    HeaderSize(data[4]) + TopicLen(data) + PayloadLen(data)
  }

  /** The bytes the checksum of a packet covers. */
  function Covered(data: Bytes): (b: Bytes)
    requires HasHeader(data) && |data| >= Expected(data)
  {
    data[4..ChecksumPos(data[4])] + data[HeaderSize(data[4])..Expected(data)]
  }

  predicate ChecksumOk(data: Bytes)
    requires HasHeader(data) && |data| >= Expected(data)
  {
    HasCrc(data[4]) ==> Checksum(Covered(data)) == FromLe(Slice(data, ChecksumPos(data[4]), 4))
  }

  predicate Acceptable(data: Bytes) {
    HasHeader(data) && |data| >= Expected(data) && ChecksumOk(data)
  }

  function Decoded(data: Bytes): (r: Option<Packet>) {
    if !Acceptable(data) then None
    else
      FieldRanges(data);
      var topicLen, size := TopicLen(data), HeaderSize(data[4]);
      Some(Packet(
        Message(data[3], data[5], data[6], data[7], FromLe(Slice(data, 8, 2)), FromLe(Slice(data, 10, 2)),
                FromLe(Slice(data, 14, 4)), FromLe(Slice(data, 18, 4)),
                Slice(data, size, topicLen), Slice(data, size + topicLen, PayloadLen(data))),
        if HasTs(data[4]) then FromLe(Slice(data, HEADER_BASE_SIZE, 8)) else 0,
        if HasCrc(data[4]) then FromLe(Slice(data, ChecksumPos(data[4]), 4)) else 0))
  }

  lemma FieldRanges(data: Bytes)
    requires HasHeader(data)
    ensures FromLe(Slice(data, 8, 2)) < 0x1_0000 && FromLe(Slice(data, 10, 2)) < 0x1_0000
    ensures FromLe(Slice(data, 14, 4)) < WORD && FromLe(Slice(data, 18, 4)) < WORD
    ensures HasTs(data[4]) ==> FromLe(Slice(data, HEADER_BASE_SIZE, 8)) < 0x1_0000_0000_0000_0000
    ensures HasCrc(data[4]) ==> FromLe(Slice(data, ChecksumPos(data[4]), 4)) < WORD
  {
    Ranges();
    LeFromLe(Slice(data, 8, 2));
    LeFromLe(Slice(data, 10, 2));
    LeFromLe(Slice(data, 14, 4));
    LeFromLe(Slice(data, 18, 4));
    if HasTs(data[4]) { LeFromLe(Slice(data, HEADER_BASE_SIZE, 8)); }
    if HasCrc(data[4]) { LeFromLe(Slice(data, ChecksumPos(data[4]), 4)); }
  }

  // ---------------------------------------------------------------- building a packet in a buffer

  /** A reused byte vector. */
  class PacketBuffer {
    var bytes: Bytes

    constructor ()
      ensures bytes == []
    {
      bytes := [];
    }

    method Put8(pos: nat, v: uint8)
      requires pos < |bytes|
      modifies this
      ensures |bytes| == |old(bytes)| && bytes[..pos + 1] == old(bytes)[..pos] + [v] && bytes[pos + 1..] == old(bytes)[pos + 1..]
    {
      bytes := bytes[pos := v];
    }

    method PutU16(pos: nat, v: uint16)
      requires pos + 2 <= |bytes|
      modifies this
      ensures |bytes| == |old(bytes)| && bytes[..pos + 2] == old(bytes)[..pos] + Le(v, 2) && bytes[pos + 2..] == old(bytes)[pos + 2..]
    {
      bytes := bytes[pos := v % 0x100][pos + 1 := v / 0x100];
      assert Le(v, 2) == [v % 0x100, v / 0x100];
    }

    method PutU32(pos: nat, v: uint32)
      requires pos + 4 <= |bytes|
      modifies this
      ensures |bytes| == |old(bytes)| && bytes[..pos + 4] == old(bytes)[..pos] + Le(v, 4) && bytes[pos + 4..] == old(bytes)[pos + 4..]
    {
      bytes := bytes[pos := v % 0x100][pos + 1 := v / 0x100 % 0x100][pos + 2 := v / 0x1_0000 % 0x100][pos + 3 := v / 0x100_0000];
      LeFour(v);
    }

    method PutU64(pos: nat, v: uint64)
      requires pos + 8 <= |bytes|
      modifies this
      ensures |bytes| == |old(bytes)| && bytes[..pos + 8] == old(bytes)[..pos] + Le(v, 8) && bytes[pos + 8..] == old(bytes)[pos + 8..]
    {
      var rest: nat := v;
      for i := 0 to 8
        invariant |bytes| == |old(bytes)| && rest == Shifted(v, i)
        invariant bytes[..pos + i] == old(bytes)[..pos] + Le(v, i)
        invariant bytes[pos + 8..] == old(bytes)[pos + 8..]
      {
        LeSnoc(v, i);
        bytes := bytes[pos + i := rest % 0x100];
        assert bytes[..pos + i + 1] == bytes[..pos + i] + [rest % 0x100];
        rest := rest / 0x100;
      }
    }

    /** Writes every header byte of a buffer of exactly the header's size; the checksum field is left 0. */
    method WriteHeader(m: Message, withTs: bool, withCrc: bool, now: uint64) returns (checksumPos: nat)
      requires WithinLimits(m) && |bytes| == HeaderSize(HdrFlags(withTs, withCrc))
      modifies this
      ensures checksumPos == ChecksumPos(HdrFlags(withTs, withCrc))
      ensures bytes == Preamble(m) + Fields(m, withTs, withCrc) + Stamp(withTs, now) + (if withCrc then Le(0, 4) else [])
    {
      WriteFirst(m, withTs, withCrc);
      WriteSecond(m, bytes[..12]);
      JoinFields(m, withTs, withCrc);
      var off := HEADER_BASE_SIZE;
      if withTs {
        PutU64(off, now);
        off := off + 8;
      }
      checksumPos := off;
      assert bytes[..off] == Preamble(m) + Fields(m, withTs, withCrc) + Stamp(withTs, now);
      if withCrc {
        PutU32(off, 0);
        off := off + 4;
      }
      assert bytes[..off] == bytes;
    }

    method WriteFirst(m: Message, withTs: bool, withCrc: bool)
      requires WithinLimits(m) && |bytes| >= HEADER_BASE_SIZE
      modifies this
      ensures |bytes| == |old(bytes)|
      ensures bytes[..12] == Preamble(m) + [HdrFlags(withTs, withCrc), m.qosLevel, m.flags, m.serializerId] +
                             Le(m.sourceId, 2) + Le(m.destId, 2)
    {
      PutU16(0, MAGIC);
      Put8(2, VERSION);
      Put8(3, m.msgType);
      assert bytes[..4] == Preamble(m);
      Put8(4, HdrFlags(withTs, withCrc));
      Put8(5, m.qosLevel);
      Put8(6, m.flags);
      Put8(7, m.serializerId);
      assert bytes[..8] == Preamble(m) + [HdrFlags(withTs, withCrc), m.qosLevel, m.flags, m.serializerId];
      PutU16(8, m.sourceId);
      PutU16(10, m.destId);
    }

    method WriteSecond(m: Message, ghost first: Bytes)
      requires WithinLimits(m) && |bytes| >= HEADER_BASE_SIZE && |first| == 12 && bytes[..12] == first
      modifies this
      ensures |bytes| == |old(bytes)|
      ensures bytes[..HEADER_BASE_SIZE] == first + Le(|m.topic|, 2) + Le(m.sequenceId, 4) + Le(m.correlationId, 4) + Le(|m.payload|, 4)
    {
      PutU16(12, |m.topic|);
      PutU32(14, m.sequenceId);
      PutU32(18, m.correlationId);
      PutU32(22, |m.payload|);
    }

    /** Fills the cleared buffer with the header of m, checksum 0. */
    method StartPacket(m: Message, withCrc: bool, now: uint64) returns (checksumPos: nat)
      requires WithinLimits(m)
      modifies this
      ensures checksumPos == 4 + |CoveredHead(m, withCrc, now)|
      ensures bytes == Preamble(m) + CoveredHead(m, withCrc, now) + (if withCrc then Le(0, 4) else [])
    {
      var withTs := IsDataMsg(m.msgType);
      bytes := seq(HeaderSize(HdrFlags(withTs, withCrc)), _ => 0);
      checksumPos := WriteHeader(m, withTs, withCrc, now);
      JoinHead(Preamble(m), Fields(m, withTs, withCrc), Stamp(withTs, now), if withCrc then Le(0, 4) else []);
    }

    /** Fills in the checksum of a packet held in one buffer. */
    method Seal(checksumPos: nat, ghost pre: Bytes, ghost head: Bytes, ghost body: Bytes)
      requires |pre| == 4 && checksumPos == 4 + |head| && bytes == pre + head + Le(0, 4) + body
      modifies this
      ensures bytes == pre + head + Le(Checksum(head + body), 4) + body
    {
      CutHead(pre, head, Le(0, 4), body);
      var crc := ComputeCrcContiguous(bytes, checksumPos);
      ghost var before := bytes;
      PutU32(checksumPos, crc);
      Patch(pre, head, Le(0, 4), body, before, bytes, Le(crc, 4));
    }

    /** Fills in the checksum of a packet whose topic and payload are not in the buffer. */
    method SealHeader(checksumPos: nat, topic: Bytes, payload: Bytes, ghost pre: Bytes, ghost head: Bytes)
      requires |pre| == 4 && checksumPos == 4 + |head| && bytes == pre + head + Le(0, 4)
      modifies this
      ensures bytes == pre + head + Le(Checksum(head + (topic + payload)), 4)
    {
      CutHeader(pre, head, Le(0, 4));
      var crc := ComputeCrcSlices(bytes[4..checksumPos], topic, payload);
      ghost var before := bytes;
      PutU32(checksumPos, crc);
      PatchHeader(pre, head, Le(0, 4), before, bytes, Le(crc, 4));
    }

    /** Encodes a whole packet; an oversized message leaves the buffer empty. */
    method EncodeInto(m: Message, withCrc: bool, now: uint64) returns (ok: bool)
      modifies this
      ensures ok <==> WithinLimits(m)
      ensures bytes == if ok then Encoded(m, withCrc, now) else []
    {
      bytes := [];
      if |m.topic| > MAX_TOPIC_LEN || |m.payload| > MAX_PAYLOAD_LEN { return false; }
      var checksumPos := StartPacket(m, withCrc, now);
      ghost var header := bytes;
      bytes := bytes + m.topic;
      if m.payload != [] { bytes := bytes + m.payload; }
      JoinBody(header, m.topic, m.payload);
      if withCrc {
        Seal(checksumPos, Preamble(m), CoveredHead(m, withCrc, now), m.topic + m.payload);
      }
      FormatOf(m, withCrc, now);
      return true;
    }

    /** Encodes the header alone, for topic and payload to be sent as separate slices. */
    method EncodeHeaderInto(m: Message, withCrc: bool, now: uint64) returns (ok: bool)
      modifies this
      ensures ok <==> WithinLimits(m)
      ensures ok ==> bytes + m.topic + m.payload == Encoded(m, withCrc, now)
      ensures !ok ==> bytes == []
    {
      bytes := [];
      if |m.topic| > MAX_TOPIC_LEN || |m.payload| > MAX_PAYLOAD_LEN { return false; }
      var checksumPos := StartPacket(m, withCrc, now);
      if withCrc {
        SealHeader(checksumPos, m.topic, m.payload, Preamble(m), CoveredHead(m, withCrc, now));
      }
      FormatOf(m, withCrc, now);
      JoinBody(bytes, m.topic, m.payload);
      return true;
    }
  }

  // ---------------------------------------------------------------- reading a packet

  function Word2(lo: uint8, hi: nat): (w: nat) {
    lo + 0x100 * hi
  }

  function GetU16(p: Bytes, at: nat): (v: uint16)
    requires at + 2 <= |p|
    ensures v == FromLe(Slice(p, at, 2))
  {
    FromTwo(Slice(p, at, 2));
    Word2(p[at], p[at + 1])
  }

  function GetU32(p: Bytes, at: nat): (v: uint32)
    requires at + 4 <= |p|
    ensures v == FromLe(Slice(p, at, 4))
  {
    FromFour(Slice(p, at, 4));
    Word4(p[at], p[at + 1], p[at + 2], p[at + 3])
  }

  method GetU64(p: Bytes, at: nat) returns (v: uint64)
    requires at + 8 <= |p|
    ensures v == FromLe(Slice(p, at, 8))
  {
    var sum: nat, scale: nat := 0, 1;
    ghost var b := Slice(p, at, 8);
    for i := 0 to 8
      invariant sum == FromLe(b[..i]) && scale == Range(i)
    {
      FromSnoc(b[..i], b[i]);
      assert b[..i + 1] == b[..i] + [b[i]];
      sum := sum + p[at + i] * scale;
      scale := scale * 0x100;
    }
    assert b[..8] == b;
    LeFromLe(b);
    Ranges();
    return sum;
  }

  /** Reads the packet at the start of a buffer, or says that there is none. */
  method Decode(data: Bytes) returns (r: Option<Packet>)
    ensures r == Decoded(data)
  {
    if |data| < HEADER_BASE_SIZE { return None; }
    if GetU16(data, 0) != MAGIC { return None; }
    if data[2] != VERSION { return None; }
    var hdrFlags := data[4];
    var hasTs, hasCrc := HasTs(hdrFlags), HasCrc(hdrFlags);
    var topicLen, payloadLen := GetU16(data, 12), GetU32(data, 22);
    var headerSize := HEADER_BASE_SIZE + (if hasTs then 8 else 0) + (if hasCrc then 4 else 0);
    if |data| < headerSize { return None; }
    var off := HEADER_BASE_SIZE;
    var timestamp: uint64, checksum: uint32 := 0, 0;
    if hasTs {
      timestamp := GetU64(data, off);
      off := off + 8;
    }
    var checksumPos := off;
    if hasCrc { checksum := GetU32(data, off); }
    var expected := headerSize + topicLen + payloadLen;
    if |data| < expected { return None; }
    if hasCrc {
      var ok := ChecksumMatches(data, checksumPos, expected, checksum);
      if !ok { return None; }
    }
    r := Some(Packet(
      Message(data[3], data[5], data[6], data[7], GetU16(data, 8), GetU16(data, 10),
              GetU32(data, 14), GetU32(data, 18),
              data[headerSize..headerSize + topicLen], data[headerSize + topicLen..expected]),
      timestamp, checksum));
  }

  method ChecksumMatches(data: Bytes, pos: nat, end: nat, checksum: uint32) returns (ok: bool)
    requires 4 <= pos && pos + 4 <= end <= |data|
    ensures ok <==> Checksum(data[4..pos] + data[pos + 4..end]) == checksum
  {
    var crc := ComputeCrcContiguous(data[..end], pos);
    CutCovered(data, pos, end);
    return crc == checksum;
  }

  lemma CutCovered(data: Bytes, pos: nat, end: nat)
    requires 4 <= pos && pos + 4 <= end <= |data|
    ensures data[..end][4..pos] == data[4..pos] && data[..end][pos + 4..] == data[pos + 4..end]
  {
  }

  lemma JoinFields(m: Message, withTs: bool, withCrc: bool)
    requires WithinLimits(m)
    ensures Preamble(m) + Fields(m, withTs, withCrc) ==
            Preamble(m) + [HdrFlags(withTs, withCrc), m.qosLevel, m.flags, m.serializerId] + Le(m.sourceId, 2) + Le(m.destId, 2) +
            Le(|m.topic|, 2) + Le(m.sequenceId, 4) + Le(m.correlationId, 4) + Le(|m.payload|, 4)
  {
  }

  lemma JoinHead(a: Bytes, b: Bytes, c: Bytes, d: Bytes)
    ensures a + b + c + d == a + (b + c) + d
  {
  }

  lemma JoinBody(a: Bytes, b: Bytes, c: Bytes)
    ensures a + b + c == a + (b + c)
  {
  }

  /** The format with topic and payload as one body. */
  lemma FormatOf(m: Message, withCrc: bool, now: uint64)
    requires WithinLimits(m)
    ensures var head, body := CoveredHead(m, withCrc, now), m.topic + m.payload;
            Encoded(m, withCrc, now) == Preamble(m) + head + Crc(head + body, withCrc) + body
  {
    var head := CoveredHead(m, withCrc, now);
    JoinBody(head, m.topic, m.payload);
    JoinBody(Preamble(m) + head + Crc(head + m.topic + m.payload, withCrc), m.topic, m.payload);
  }

  lemma CutHead(pre: Bytes, head: Bytes, field: Bytes, body: Bytes)
    requires |pre| == 4 && |field| == 4
    ensures var buf, pos := pre + head + field + body, 4 + |head|;
            buf[4..pos] == head && buf[pos + 4..] == body
  {
  }

  /** Writing the checksum field changes nothing else. */
  lemma Patch(pre: Bytes, head: Bytes, field: Bytes, body: Bytes, before: Bytes, after: Bytes, crc: Bytes)
    requires |field| == |crc| == 4 && before == pre + head + field + body && |after| == |before|
    requires var pos := |pre| + |head|;
             after[..pos + 4] == before[..pos] + crc && after[pos + 4..] == before[pos + 4..]
    ensures after == pre + head + crc + body
  {
    var pos := |pre| + |head|;
    assert after == after[..pos + 4] + after[pos + 4..];
    assert before[..pos] == pre + head && before[pos + 4..] == body;
  }

  lemma CutHeader(pre: Bytes, head: Bytes, field: Bytes)
    requires |pre| == 4
    ensures (pre + head + field)[4..4 + |head|] == head
  {
  }

  lemma PatchHeader(pre: Bytes, head: Bytes, field: Bytes, before: Bytes, after: Bytes, crc: Bytes)
    requires |field| == |crc| && before == pre + head + field && |after| == |before|
    requires after[..|before|] == before[..|pre| + |head|] + crc
    ensures after == pre + head + crc
  {
    assert before[..|pre| + |head|] == pre + head;
    assert after[..|before|] == after;
  }

  /** CRC of a packet in three pieces. */
  method ComputeCrcSlices(head: Bytes, topic: Bytes, payload: Bytes) returns (crc: uint32)
    ensures crc == Checksum(head + (topic + payload))
  {
    var state := Crc32Update(ONES, head);
    if topic != [] { state := Crc32Update(state, topic); }
    if payload != [] { state := Crc32Update(state, payload); }
    UpdateConcat(ONES, head, topic + payload);
    UpdateConcat(Update(ONES, head), topic, payload);
    return ONES - state;
  }

  /** CRC of a packet in one buffer, skipping the checksum field. */
  method ComputeCrcContiguous(buf: Bytes, checksumPos: nat) returns (crc: uint32)
    requires 4 <= checksumPos && checksumPos + 4 <= |buf|
    ensures crc == Checksum(buf[4..checksumPos] + buf[checksumPos + 4..])
  {
    var state := Crc32Update(ONES, buf[4..checksumPos]);
    UpdateConcat(ONES, buf[4..checksumPos], buf[checksumPos + 4..]);
    if |buf| > checksumPos + 4 { state := Crc32Update(state, buf[checksumPos + 4..]); }
    return ONES - state;
  }

  function Shifted(v: nat, n: nat): (r: nat)
    decreases n
  {
    if n == 0 then v else Shifted(v, n - 1) / 0x100
  }

  lemma {:induction false} ShiftedFirst(v: nat, n: nat)
    ensures Shifted(v, n + 1) == Shifted(v / 0x100, n)
    decreases n
  {
    if n > 0 { ShiftedFirst(v, n - 1); }
  }

  /** One more byte of the same number. */
  lemma {:induction false} LeSnoc(v: nat, n: nat)
    ensures Le(v, n + 1) == Le(v, n) + [Shifted(v, n) % 0x100]
    decreases n
  {
    if n > 0 {
      LeSnoc(v / 0x100, n - 1);
      ShiftedFirst(v, n - 1);
    }
  }

  lemma LeFour(v: uint32)
    ensures Le(v, 4) == [v % 0x100, v / 0x100 % 0x100, v / 0x1_0000 % 0x100, v / 0x100_0000]
  {
    var a := v / 0x100;
    var b := a / 0x100;
    var c := b / 0x100;
    assert Le(c, 1) == [c % 0x100] && Le(b, 2) == [b % 0x100] + Le(c, 1) && Le(a, 3) == [a % 0x100] + Le(b, 2);
  }

  lemma FromTwo(b: Bytes)
    requires |b| == 2
    ensures FromLe(b) == Word2(b[0], b[1])
  {
    assert FromLe(b[1..]) == b[1];
  }

  lemma FromFour(b: Bytes)
    requires |b| == 4
    ensures FromLe(b) == Word4(b[0], b[1], b[2], b[3])
  {
    FromTwo(b[2..]);
    var c := b[1..];
    assert c[1..] == b[2..] && FromLe(c) == c[0] + 0x100 * FromLe(c[1..]);
  }

  lemma {:induction false} FromSnoc(b: Bytes, x: uint8)
    ensures FromLe(b + [x]) == FromLe(b) + x * Range(|b|)
    decreases |b|
  {
    if b == [] {
      assert [x][1..] == [];
    } else {
      assert (b + [x])[1..] == b[1..] + [x];
      FromSnoc(b[1..], x);
      assert 0x100 * (x * Range(|b| - 1)) == x * Range(|b|);
    }
  }
}
