/** The bus packets of src/core/message_bus.cpp as a receiver sees them after decoding, and their addressing. */
module Packets {
  import opened Words

  datatype Level = BestEffort | Reliable | ExactlyOnce

  datatype Packet =
    | Publish(seqId: uint32, level: Level, topic: string, payload: Bytes)
    | Request(seqId: uint32, level: Level, corrId: uint32, topic: string, payload: Bytes)
    | Reply(seqId: uint32, level: Level, corrId: uint32, payload: Bytes)
    | Ack(seqId: uint32)
    | Nack(seqId: uint32)
    | Pubrec(seqId: uint32)
    | Pubrel(seqId: uint32)
    | Pubcomp(seqId: uint32)

  /** A packet on its way between two nodes; a node id stands for the node's endpoint. */
  datatype Datagram = Datagram(from: uint16, to: uint16, packet: Packet)

  /** Packets that carry a sequence number of their own sender. */
  predicate Numbered(p: Packet) {
    p.Publish? || p.Request? || p.Reply?
  }

  predicate AtLeastReliable(level: Level) {
    level != BestEffort
  }
}
