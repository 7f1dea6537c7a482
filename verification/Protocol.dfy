/** The whole system as a state machine: the source device and its ring buffer, the client's
    threads, the two directions of the connection, the server with its hash pass, and the replica.

    A step is what one thread does between two moments at which others may act. Source writes,
    batch reads, packet deliveries, byte reads of the source, hash computations and overflows
    interleave freely. */
module Protocol {
  import opened Images
  import opened Blocks
  import opened ServerCore
  import R = Ring

  /** The source device before the first write, the block size of the scans, the journal's
      capacity and the hash, of which nothing is assumed. */
  datatype Config = Config(base: Image, blockSize: nat, caps: Caps, hash: seq<byte> -> nat)

  /** What the server sends. */
  datatype Reply = PassStarted | BlockHash(chunk: Chunk, hash: nat) | PassCompleted

  /** A block that the client is reading: the hash it is to be compared with and the bytes read so
      far, by their position on the device. */
  datatype Item = Item(hash: nat, got: map<nat, byte>)

  datatype Phase =
    | Boot                 // before the client has chosen how to start
    | Live                 // the monitor forwards batches
    | Scanning             // from the request for hashes until the last block has been compared
    | Draining             // the buffer is sent at the end of a scan
    | Copying              // full replication
    | CatchingUp(hi: nat)  // the copy is made, the writes made meanwhile (up to `hi`) are to follow
    | Stopped

  /** The server's hash pass: the blocks still to be hashed. */
  datatype Pass = NoPass | Pass(todo: set<Chunk>)

  /** The ring of the kernel module; every operation on it keeps `R.Valid`. */
  type WriteRing = r: R.Ring<Write> | R.Valid(r) witness R.New([Write(0, [])])

  datatype System = System(
    // source
    history: seq<Write>,        // all writes made to the source, as the kernel module logs them
    landed: nat,                // how many of them have reached the source device
    source: Image,
    ring: WriteRing,
    // client
    phase: Phase,
    start: nat,                 // length of the history when the ring was last reset
    readPos: nat,               // length of the history covered by the batches read
    info: R.Info,               // the batch being sent
    next: nat,                  // its next write to send
    work: map<Chunk, Item>,     // blocks being read
    owed: bool,                 // the listener has resumed the monitor and is to send the completion packet
    // connection
    toServer: seq<Packet>,
    toClient: seq<Reply>,
    overflowNotice: bool,       // the journal overflow packet, on its way to the client
    // server
    core: Core,
    pass: Pass)

  datatype Step =
    | SourceWrite(w: Write)
    | WriteLands
    | StartWithScan
    | StartWithReplication
    | StartWithoutReplication
    | MonitorRead
    | SendWrite
    | ReceiveReply
    | ReadByte(chunk: Chunk, i: nat)
    | CompareBlock(chunk: Chunk)
    | ReadBuffer
    | ResumeMonitor
    | SendCompleted
    | SendReplicationBlock(chunk: Chunk)
    | FinishReplication
    | StopClient
    | DeliverPacket
    | HashBlock(chunk: Chunk)
    | EndPass

  function AllChunks(c: Config): (cs: set<Chunk>)
    requires c.blockSize > 0
  {
    set ch | ch in Chunks(0, |c.base|, c.blockSize)
  }

  function NewItems(cs: set<Chunk>): map<Chunk, Item> {
    map ch | ch in cs :: Item(0, map[])
  }

  function Send(s: System, p: Packet): System {
    s.(toServer := s.toServer + [p])
  }

  /** Reset of the ring, with nothing read from it and nothing left to send. */
  function ResetRing(s: System): System {
    s.(ring := R.Reset(s.ring), start := |s.history|, readPos := |s.history|,
       info := R.Info(0, 0, false), next := 0, work := map[])
  }

  /** `StartHashing` on the client. */
  function BeginScan(s: System): System {
    Send(ResetRing(s).(phase := Scanning), CmdStartHashing(|s.history|))
  }

  /** The read of the ring that hands over a batch. */
  function TakeBatch(s: System): System {
    s.(ring := R.Read(s.ring), info := R.InfoOf(s.ring), next := 0, readPos := s.readPos + s.ring.length)
  }

  /** The client looks for new writes first and for an overflow only then. */
  predicate SeesOverflow(s: System) {
    s.ring.length != 0 && s.ring.overflown
  }

  predicate Complete(ch: Chunk, item: Item) {
    forall i :: ch.offset <= i < ch.offset + ch.size ==> i in item.got
  }

  function Buffer(ch: Chunk, item: Item): (buf: seq<byte>)
    requires Complete(ch, item)
    ensures |buf| == ch.size
  {
    seq(ch.size, k requires 0 <= k < ch.size => item.got[ch.offset + k])
  }

  predicate MonitorRuns(s: System) {
    s.phase.Live? || s.phase.CatchingUp?
  }

  predicate BatchSent(s: System) {
    s.next == s.info.length
  }

  /** No write that was logged is still on its way to the source device. */
  predicate Quiet(s: System) {
    s.landed == |s.history|
  }

  /** The block that was hashed on the server and the one read on the client do not collide. */
  predicate NoCollision(c: Config, s: System, ch: Chunk, buf: seq<byte>) {
    ch.offset + ch.size <= |s.core.replica| &&
    (c.hash(buf) == c.hash(Slice(s.core.replica, ch)) ==> buf == Slice(s.core.replica, ch))
  }

  /** When a step can be taken. Besides what the code waits for, three things are assumed: the
      writes logged before the ring was reset have reached the device when the first byte of it is
      read; blocks compared do not collide; and
      the server handles each packet to completion, as `DeliverPacket` does. While the listener is
      sending the completion packet it receives nothing, but the monitor may act, and even begin
      the next scan. */
  predicate Enabled(c: Config, s: System, step: Step)
    requires c.blockSize > 0
  {
    match step
    case SourceWrite(_) => true
    case WriteLands => s.landed < |s.history|
    case StartWithScan => s.phase.Boot?
    case StartWithReplication => s.phase.Boot?
    case StartWithoutReplication => s.phase.Boot?
    case MonitorRead => MonitorRuns(s) && BatchSent(s)
    case SendWrite =>
      && (MonitorRuns(s) || s.phase.Draining?) && s.next < s.info.length
      && s.info.offset < |s.ring.slots| && s.next < |s.ring.slots|
    case ReceiveReply => s.phase.Scanning? && !s.owed && s.toClient != [] && !s.toClient[0].PassCompleted?
    case ReadByte(ch, i) =>
      ch in s.work && In(ch, i) && i < |s.source| && i !in s.work[ch].got && s.start <= s.landed
    case CompareBlock(ch) =>
      && s.phase.Scanning? && ch in s.work && Complete(ch, s.work[ch])
      && NoCollision(c, s, ch, Buffer(ch, s.work[ch]))
    case ReadBuffer =>
      && s.phase.Scanning? && !s.owed && s.toClient != [] && s.toClient[0].PassCompleted? && s.work == map[]
    case ResumeMonitor => s.phase.Draining? && BatchSent(s)
    case SendCompleted => s.owed
    case SendReplicationBlock(ch) => s.phase.Copying? && ch in s.work && Complete(ch, s.work[ch])
    case FinishReplication => s.phase.Copying? && s.work == map[]
    case StopClient => s.overflowNotice && !s.owed && !s.phase.Stopped?
    case DeliverPacket => s.toServer != []
    case HashBlock(ch) => s.pass.Pass? && ch in s.pass.todo && ch.offset + ch.size <= |s.core.replica|
    case EndPass => s.pass.Pass? && s.pass.todo == {}
  }

  /** The history that a full replication may have seen. */
  function CopyEnd(s: System): nat {
    if s.landed < s.start then s.start else s.landed
  }

  function Do(c: Config, s: System, step: Step): System
    requires c.blockSize > 0 && Enabled(c, s, step)
  {
    match step
    case SourceWrite(w) => s.(history := s.history + [w], ring := R.Put(s.ring, w))
    case WriteLands => s.(landed := s.landed + 1, source := WriteAt(s.source, s.history[s.landed]))
    case StartWithScan => BeginScan(s)
    case StartWithReplication =>
      Send(ResetRing(s).(phase := Copying, work := NewItems(AllChunks(c))), StartReplication)
    case StartWithoutReplication => s.(phase := Live)
    case MonitorRead => if SeesOverflow(s) then BeginScan(s) else TakeBatch(s)
    case SendWrite => Send(s, BufferWrite(R.Decode(s.ring, s.info, s.next))).(next := s.next + 1)
    case ReceiveReply =>
      var r := s.toClient[0];
      s.(toClient := s.toClient[1..],
         work := if r.BlockHash? then s.work[r.chunk := Item(r.hash, map[])] else s.work)
    case ReadByte(ch, i) =>
      var item := s.work[ch];
      s.(work := s.work[ch := item.(got := item.got[i := s.source[i]])])
    case CompareBlock(ch) =>
      var buf := Buffer(ch, s.work[ch]);
      var t := s.(work := s.work - {ch});
      if c.hash(buf) != s.work[ch].hash then Send(t, CorrectBlock(Write(ch.offset, buf))) else t
    case ReadBuffer =>
      var t := s.(toClient := s.toClient[1..]);
      if SeesOverflow(s) then BeginScan(t) else TakeBatch(t).(phase := Draining)
    case ResumeMonitor => s.(phase := Live, owed := true)
    case SendCompleted => Send(s.(owed := false), HashingCompleted(s.phase.Scanning?))
    case SendReplicationBlock(ch) =>
      Send(s.(work := s.work - {ch}), ReplicationBlock(Write(ch.offset, Buffer(ch, s.work[ch]))))
    case FinishReplication => Send(s.(phase := CatchingUp(CopyEnd(s))), ReplicationCompleted(s.start, CopyEnd(s)))
    case StopClient => s.(phase := Stopped)
    case DeliverPacket =>
      var p := s.toServer[0];
      var core := Deliver(c.caps, s.core, p);
      s.(toServer := s.toServer[1..], core := core,
         pass := if p.CmdStartHashing? then Pass(AllChunks(c)) else s.pass,
         toClient := if p.CmdStartHashing? then s.toClient + [PassStarted] else s.toClient,
         overflowNotice := s.overflowNotice || (core.mode == JournalOverflow && s.core.mode != JournalOverflow))
    case HashBlock(ch) =>
      s.(toClient := s.toClient + [BlockHash(ch, c.hash(Slice(s.core.replica, ch)))],
         pass := Pass(s.pass.todo - {ch}))
    case EndPass => s.(toClient := s.toClient + [PassCompleted], pass := NoPass)
  }

  /** Nothing written yet, an empty ring, and a replica of the right size with any contents. */
  ghost predicate Init(c: Config, s: System) {
    && c.blockSize > 0
    && s.history == [] && s.landed == 0 && s.source == c.base
    && !s.ring.overflown && R.Pending(s.ring) == []
    && s.phase == Boot && s.start == 0 && s.readPos == 0
    && s.info == R.Info(0, 0, false) && s.next == 0 && s.work == map[] && !s.owed
    && s.toServer == [] && s.toClient == [] && !s.overflowNotice
    && s.core.mode == Writing && |s.core.replica| == |c.base| && !s.core.synced
    && s.core.goal == NoGoal && s.core.skip == NoSkip
    && s.pass == NoPass
  }

  ghost predicate IsRun(c: Config, states: seq<System>, steps: seq<Step>) {
    && |states| == |steps| + 1
    && Init(c, states[0])
    && forall i :: 0 <= i < |steps| ==>
         Enabled(c, states[i], steps[i]) && states[i + 1] == Do(c, states[i], steps[i])
  }
}
