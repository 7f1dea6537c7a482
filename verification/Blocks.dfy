/** How a device is divided into blocks, on the server for hashing and on the client for
    replication. */
module Blocks {
  import opened Images

  datatype Chunk = Chunk(offset: nat, size: nat)

  predicate In(c: Chunk, i: int) {
    c.offset <= i < c.offset + c.size
  }

  /** The blocks from `offset` on: whole blocks, then what is left. */
  function Chunks(offset: nat, total: nat, blockSize: nat): (cs: seq<Chunk>)
    requires blockSize > 0
    ensures forall k :: 0 <= k < |cs| ==>
              offset <= cs[k].offset && 0 < cs[k].size <= blockSize && cs[k].offset + cs[k].size <= total
    decreases total - offset
  {
    if offset >= total then []
    else if total - offset <= blockSize then [Chunk(offset, total - offset)]
    else [Chunk(offset, blockSize)] + Chunks(offset + blockSize, total, blockSize)
  }

  /** The blocks cover every byte. */
  lemma {:induction false} EveryByteInAChunk(offset: nat, total: nat, blockSize: nat, i: nat)
    requires blockSize > 0 && offset <= i < total
    ensures exists k :: 0 <= k < |Chunks(offset, total, blockSize)| && In(Chunks(offset, total, blockSize)[k], i)
    decreases total - offset
  {
    var cs := Chunks(offset, total, blockSize);
    if In(cs[0], i) {
    } else {
      var rest := Chunks(offset + blockSize, total, blockSize);
      EveryByteInAChunk(offset + blockSize, total, blockSize, i);
      var k :| 0 <= k < |rest| && In(rest[k], i);
      assert cs[k + 1] == rest[k];
    }
  }

  /** No byte is in two of them. */
  lemma {:induction false} ChunksInOrder(offset: nat, total: nat, blockSize: nat, j: nat, k: nat)
    requires blockSize > 0 && j < k < |Chunks(offset, total, blockSize)|
    ensures var cs := Chunks(offset, total, blockSize); cs[j].offset + cs[j].size <= cs[k].offset
    decreases total - offset
  {
    var cs := Chunks(offset, total, blockSize);
    var rest := Chunks(offset + blockSize, total, blockSize);
    if j > 0 {
      ChunksInOrder(offset + blockSize, total, blockSize, j - 1, k - 1);
    } else {
      assert cs[k] == rest[k - 1];
    }
  }

  /** `tasks` are the blocks before `offset`. */
  ghost predicate TasksBefore(tasks: seq<Chunk>, offset: nat, total: nat, blockSize: nat)
    requires blockSize > 0
  {
    Chunks(0, total, blockSize) == tasks + Chunks(offset, total, blockSize)
  }

  lemma NoTasksYet(total: nat, blockSize: nat)
    requires blockSize > 0
    ensures TasksBefore([], 0, total, blockSize)
  {
  }

  lemma NextTask(tasks: seq<Chunk>, offset: nat, total: nat, blockSize: nat)
    requires blockSize > 0 && offset < total && TasksBefore(tasks, offset, total, blockSize)
    ensures var size := if total - offset < blockSize then total - offset else blockSize;
            TasksBefore(tasks + [Chunk(offset, size)], offset + blockSize, total, blockSize)
  {
  }

  lemma AllTasks(tasks: seq<Chunk>, offset: nat, total: nat, blockSize: nat)
    requires blockSize > 0 && offset >= total && TasksBefore(tasks, offset, total, blockSize)
    ensures tasks == Chunks(0, total, blockSize)
  {
  }

  /** The tasks of `HashDisk`: a read of a whole block at every multiple of the block size, which
      the end of the device cuts short. */
  method HashTasks(total: nat, readSize: nat) returns (tasks: seq<Chunk>)
    requires readSize > 0
    ensures tasks == Chunks(0, total, readSize)
  {
    hide Chunks, TasksBefore;
    tasks := [];
    var offset := 0;
    NoTasksYet(total, readSize);
    while offset < total
      invariant TasksBefore(tasks, offset, total, readSize)
      decreases total - offset
    {
      NextTask(tasks, offset, total, readSize);
      var n := readSize;
      if total - offset < readSize {
        n := total - offset;
      }
      tasks := tasks + [Chunk(offset, n)];
      offset := offset + readSize;
    }
    AllTasks(tasks, offset, total, readSize);
  }

  /** The tasks of `InitReplication`, which computes the size of the last block beforehand. */
  method ReplicationTasks(diskSize: nat, blockSize: nat) returns (tasks: seq<Chunk>)
    requires blockSize > 0
    ensures tasks == Chunks(0, diskSize, blockSize)
  {
    hide Chunks, TasksBefore;
    tasks := [];
    var offset := 0;
    NoTasksYet(diskSize, blockSize);
    while offset < diskSize
      invariant TasksBefore(tasks, offset, diskSize, blockSize)
      decreases diskSize - offset
    {
      NextTask(tasks, offset, diskSize, blockSize);
      var size := blockSize;
      if offset + size > diskSize {
        size := diskSize - offset;
      }
      tasks := tasks + [Chunk(offset, size)];
      offset := offset + blockSize;
    }
    AllTasks(tasks, offset, diskSize, blockSize);
  }

  function Slice(d: Image, c: Chunk): seq<byte>
    requires c.offset + c.size <= |d|
  {
    d[c.offset..c.offset + c.size]
  }

  /** One write for each block of `d`, in the order of the blocks. */
  function BlockWrites(d: Image, blockSize: nat): (ws: seq<Write>)
    requires blockSize > 0
  {
    var cs := Chunks(0, |d|, blockSize);
    seq(|cs|, k requires 0 <= k < |cs| => Write(cs[k].offset, Slice(d, cs[k])))
  }

  lemma BlockWritesHold(d: Image, blockSize: nat, w: Write, i: nat)
    requires blockSize > 0 && i < |d| && w in BlockWrites(d, blockSize) && Covers(w, i)
    ensures w.data[i - w.offset] == d[i]
  {
    var cs := Chunks(0, |d|, blockSize);
    var k :| 0 <= k < |cs| && w == BlockWrites(d, blockSize)[k];
  }

  lemma BlockWritesCover(d: Image, blockSize: nat, i: nat)
    requires blockSize > 0 && i < |d|
    ensures exists w :: w in BlockWrites(d, blockSize) && Covers(w, i)
  {
    var cs := Chunks(0, |d|, blockSize);
    EveryByteInAChunk(0, |d|, blockSize, i);
    var k :| 0 <= k < |cs| && In(cs[k], i);
    assert BlockWrites(d, blockSize)[k] in BlockWrites(d, blockSize);
  }

  /** Writing the blocks of an image over any other copies the image, in whatever order the
      workers take them and even if some are written more than once. */
  lemma BlocksCopyImage(d: Image, e: Image, blockSize: nat, order: seq<Write>)
    requires blockSize > 0 && |d| == |e|
    requires forall w :: w in order <==> w in BlockWrites(d, blockSize)
    ensures Apply(order, e) == d
  {
    forall i | 0 <= i < |d| ensures Apply(order, e)[i] == d[i] {
      ApplyByte(order, e, i);
      BlockWritesCover(d, blockSize, i);
      var last := LastCover(order, i);
      assert last >= 0 && order[last] in order;
      BlockWritesHold(d, blockSize, order[last], i);
    }
  }
}
