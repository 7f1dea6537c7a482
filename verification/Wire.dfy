/** What the client puts on the wire is what the system model sends, and what the server takes it for. */
module Wire {
  import opened Images
  import opened Codec
  import opened Blocks
  import opened ServerCore
  import opened Protocol
  import opened RingBuffer
  import opened Server
  import R = Ring

  /** `CorrectBlockInfo` and `ReplicationBlockInfo` for a block that has been read. */
  function BlockInfo(ch: Chunk, buf: seq<byte>): Entry
    requires ch.offset < U64 && ch.size < U32
  {
    Entry(ch.offset, ch.size, buf)
  }

  /** The last packet sent. */
  function Newest(s: System): Packet
    requires s.toServer != []
  {
    s.toServer[|s.toServer| - 1]
  }

  /** A block that differs, and a block of a full replication: position, size and bytes as they were read. */
  lemma BlockPayload(c: Config, s: System, ch: Chunk, note: Note)
    requires c.blockSize > 0 && ch.offset < U64 && ch.size < U32
    ensures Enabled(c, s, CompareBlock(ch)) && c.hash(Buffer(ch, s.work[ch])) != s.work[ch].hash ==>
              var t := Do(c, s, CompareBlock(ch));
              && |t.toServer| == |s.toServer| + 1
              && Newest(t) == PacketOf(MsgCorrectBlock(BlockInfo(ch, Buffer(ch, s.work[ch]))), note)
    ensures Enabled(c, s, SendReplicationBlock(ch)) ==>
              var t := Do(c, s, SendReplicationBlock(ch));
              && |t.toServer| == |s.toServer| + 1
              && Newest(t) == PacketOf(MsgReplicationBlock(BlockInfo(ch, Buffer(ch, s.work[ch]))), note)
    ensures ch in s.work && Complete(ch, s.work[ch]) ==>
              forall i: nat :: ch.offset <= i < ch.offset + ch.size ==>
                Buffer(ch, s.work[ch])[i - ch.offset] == s.work[ch].got[i]
  {
    if ch in s.work && Complete(ch, s.work[ch]) {
      var buf := Buffer(ch, s.work[ch]);
      assert buf[..ch.size] == buf;
    }
  }

  /** A write of the batch: the slot that the client's index finds, whole page and size. */
  lemma WritePayload(c: Config, s: System, rb: RingBuffer, note: Note)
    requires c.blockSize > 0 && rb.Valid() && rb.Model() == s.ring && Enabled(c, s, SendWrite)
    ensures var t, slot := Do(c, s, SendWrite), rb.slots[(s.info.offset + s.next) % rb.slots.Length];
            && |t.toServer| == |s.toServer| + 1
            && Newest(t) == PacketOf(MsgBufferWrite(Payload(slot)), note)
            && Newest(t) == BufferWrite(Write(SECTOR * slot.sector, slot.data[..slot.size]))
  {
    R.WrapIsRemainder(s.info.offset + s.next, rb.slots.Length);
    var slot := rb.slots[(s.info.offset + s.next) % rb.slots.Length];
    PathsAgree(slot);
  }
}
