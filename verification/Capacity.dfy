/** How much of the kernel's ring the journal can hold. A ring slot takes 4104 bytes, the server
    sizes the write section in bytes of the ring, and a journal slot takes 4108. */
module Capacity {
  import opened Codec
  import opened JournalDisk
  import opened RingBuffer

  const RING_SLOT: nat := 4 + 4 + PAGE

  function CeilDiv(a: nat, b: nat): nat
    requires b > 0
  {
    (a + b - 1) / b
  }

  /** The server's journal for a ring of `m` writes: one slot in 1027 is missing. */
  lemma SlotsLost(size: u64, m: nat, blockSize: u64)
    requires m * RING_SLOT < U64 && NewHeader(size, m * RING_SLOT, WRITE_INFO_SIZE, blockSize).Ok?
    ensures NewHeader(size, m * RING_SLOT, WRITE_INFO_SIZE, blockSize).header.writeCount + CeilDiv(m, 1027) == m
  {
    var q := CeilDiv(m, 1027);
    assert q * 1027 >= m && (q == 0 || (q - 1) * 1027 < m);
    assert m * RING_SLOT == m * WRITE_INFO_SIZE - 4 * m;
    assert (m - q) * WRITE_INFO_SIZE <= m * RING_SLOT < (m - q + 1) * WRITE_INFO_SIZE;
  }

  /** The largest batch that a ring hands over without overflowing has `m - 1` writes; the journal
      takes it exactly when the ring has at most 1027 slots, and even then without leaving the free
      slot that recovery needs. */
  lemma LargestBatchFits(size: u64, m: nat, blockSize: u64)
    requires m * RING_SLOT < U64 && NewHeader(size, m * RING_SLOT, WRITE_INFO_SIZE, blockSize).Ok?
    ensures var slots := NewHeader(size, m * RING_SLOT, WRITE_INFO_SIZE, blockSize).header.writeCount;
            && (m - 1 <= slots <==> m <= 1027)
            && slots <= m - 1
  {
    SlotsLost(size, m, blockSize);
  }
}
