/** What every state of the system keeps.

    The invariant speaks about `Final`, the state the server will be in once every packet on its way
    has been delivered. Delivering a packet does not change `Final`, and sending one acts on it at
    once, so that each client step is checked as if there were no network. */
module Invariant {
  import opened Images
  import opened Blocks
  import opened ServerCore
  import opened Protocol
  import R = Ring

  ghost function Final(c: Config, s: System): (f: Core)
    ensures |f.replica| == |s.core.replica|
  {
    Run(c.caps, s.core, s.toServer)
  }

  /** Length of the history that has been sent, in the current scan or stream. */
  ghost function Sent(s: System): int {
    s.readPos - (s.info.length - s.next)
  }

  // --- source and ring ------------------------------------------------------------------------

  ghost predicate SourceOk(c: Config, history: seq<Write>, landed: nat, source: Image) {
    landed <= |history| && source == At(history, c.base, landed)
  }

  /** The pending writes continue the history where the batches read so far end, and the rest of
      the current batch leads up to that point. */
  ghost predicate RingOk(history: seq<Write>, ring: R.Ring<Write>, info: R.Info, next: nat, readPos: nat) {
    && R.Valid(ring)
    && readPos + R.Stored(ring) <= |history|
    && R.Pending(ring) == history[readPos..readPos + R.Stored(ring)]
    && (!ring.overflown ==> readPos + R.Stored(ring) == |history|)
    && next <= info.length && info.length - next <= readPos
    && (next < info.length ==>
          && info.offset == ring.last && info.length == R.Gap(ring)
          && R.Batch(ring)[next..] == history[readPos - (info.length - next)..readPos])
  }

  // --- consistency of every state the server will go through ------------------------------------

  /** Once synchronised, the replica is the source after its first `pos` writes. After a stale
      completion it is what it was then, with the writes from `skip.from` to `pos` applied. */
  ghost predicate Tracked(c: Config, history: seq<Write>, core: Core) {
    && (core.synced ==> core.pos <= |history| && core.replica == At(history, c.base, core.pos))
    && (core.skip.Skip? ==>
          && !core.synced && core.skip.from <= core.pos <= |history|
          && core.replica == Apply(history[core.skip.from..core.pos], core.skip.before))
  }

  /** The journal holds the writes from `from` on, and replaying it will bring the replica to the
      source as of the last of them, which is no step back. */
  ghost predicate Converges(c: Config, history: seq<Write>, core: Core) {
    var end := core.from + |core.writes|;
    && end <= |history| && core.writes == history[core.from..end]
    && Replay(core) == At(history, c.base, end)
    && (core.synced ==> core.pos <= core.from)
  }

  /** The journal's writes are those of the history from `from` on, as many as it took. */
  ghost predicate FromHistory(history: seq<Write>, core: Core) {
    core.from + |core.writes| <= |history| && core.writes == history[core.from..core.from + |core.writes|]
  }

  predicate EmptyJournal(core: Core) {
    core.blocks == [] && core.writes == []
  }

  /** A completion packet finds the journal of its scan, whole or overflown. A stale one finds the
      journal just cleared, and the completion of the scan that it ended finds it still empty, and
      the server writing. */
  ghost predicate CompletionOk(c: Config, history: seq<Write>, core: Core, stale: bool) {
    if stale then
      core.mode == Hashing && EmptyJournal(core) && core.from <= |history| && (core.synced ==> core.pos <= core.from)
    else
      && core.mode != Replicating
      && (core.mode == Hashing ==> Converges(c, history, core))
      && (core.mode == JournalOverflow ==> FromHistory(history, core))
      && (core.mode == Writing ==> !core.synced && EmptyJournal(core))
  }

  /** A block to be journaled is one more of the device's blocks, and a write to be journaled one
      more of the history. Full replication happens to a replica that was never synchronised. */
  ghost predicate PacketOk(c: Config, history: seq<Write>, core: Core, p: Packet) {
    && (p.HashingCompleted? ==> CompletionOk(c, history, core, p.stale))
    && (p.CorrectBlock? && core.mode == Hashing ==> c.blockSize > 0 && |core.blocks| < |AllChunks(c)|)
    && (p.BufferWrite? && core.mode == Hashing ==> core.from + |core.writes| < |history|)
    && (p.StartReplication? || p.ReplicationCompleted? ==> !core.synced && core.skip == NoSkip)
  }

  /** The server after the first `k` packets on their way. */
  ghost function Upcoming(c: Config, core: Core, net: seq<Packet>, k: nat): Core
    requires k <= |net|
  {
    Run(c.caps, core, net[..k])
  }

  ghost predicate NetOk(c: Config, history: seq<Write>, core: Core, net: seq<Packet>) {
    && (forall k: nat :: k <= |net| ==> Tracked(c, history, Upcoming(c, core, net, k)))
    && (forall k: nat :: k < |net| ==> PacketOk(c, history, Upcoming(c, core, net, k), net[k]))
  }

  // --- scans -----------------------------------------------------------------------------------

  ghost predicate WithinDevice(c: Config, cs: set<Chunk>) {
    forall ch :: ch in cs ==> ch.offset + ch.size <= |c.base|
  }

  ghost predicate SeenAll(c: Config, history: seq<Write>, lo: nat, hi: nat, ws: seq<Write>)
    requires hi <= |history|
  {
    forall k, i: nat :: 0 <= k < |ws| && i < |c.base| && Covers(ws[k], i) ==>
      Seen(history, c.base, lo, hi, i, ws[k].data[i - ws[k].offset])
  }

  /** Bytes read by the client are bytes that the source had since the ring was reset. */
  ghost predicate WorkOk(c: Config, history: seq<Write>, lo: nat, hi: nat, work: map<Chunk, Item>)
    requires hi <= |history|
  {
    && WithinDevice(c, work.Keys)
    && forall ch, i: nat :: ch in work && i in work[ch].got && i < |c.base| ==>
         Seen(history, c.base, lo, hi, i, work[ch].got[i])
  }

  ghost function HashedChunks(replies: seq<Reply>): set<Chunk> {
    set r | r in replies && r.BlockHash? :: r.chunk
  }

  /** Blocks whose comparison is still to come. */
  ghost function Outstanding(s: System): set<Chunk> {
    (if s.pass.Pass? then s.pass.todo else {}) + HashedChunks(s.toClient) + s.work.Keys
  }

  ghost predicate InSome(cs: set<Chunk>, i: nat) {
    exists ch :: ch in cs && In(ch, i)
  }

  /** Every byte that the journal's blocks leave alone is right already or is in a block whose
      comparison is still to come. */
  ghost predicate BytesOk(c: Config, history: seq<Write>, lo: nat, hi: nat, blocks: seq<Write>, replica: Image, rest: set<Chunk>)
    requires hi <= |history| && |replica| == |c.base|
  {
    && SeenAll(c, history, lo, hi, blocks)
    && forall i: nat :: i < |c.base| ==>
         Covered(blocks, i) || Seen(history, c.base, lo, hi, i, replica[i]) || InSome(rest, i)
  }

  ghost predicate HashesOk(c: Config, s: System)
    requires |s.core.replica| == |c.base|
  {
    && WithinDevice(c, Outstanding(s))
    && (forall r :: r in s.toClient && r.BlockHash? ==>
          r.chunk.offset + r.chunk.size <= |c.base| && r.hash == c.hash(Slice(s.core.replica, r.chunk)))
    && (forall ch :: ch in s.work ==>
          ch.offset + ch.size <= |c.base| && s.work[ch].hash == c.hash(Slice(s.core.replica, ch)))
  }

  /** The completion reply is the last of a pass. */
  ghost predicate RepliesOk(pass: Pass, replies: seq<Reply>) {
    && (forall k :: 0 <= k < |replies| && replies[k].PassCompleted? ==> k == |replies| - 1 && pass.NoPass?)
    && (pass.NoPass? ==> replies != [] && replies[|replies| - 1].PassCompleted?)
  }

  predicate NoCommand(net: seq<Packet>) {
    forall k :: 0 <= k < |net| ==> !net[k].CmdStartHashing?
  }

  predicate Idle(s: System) {
    s.pass.NoPass? && s.toClient == []
  }

  /** Hashes on their way to the client. */
  ghost function HashCount(replies: seq<Reply>): nat {
    if replies == [] then 0
    else HashCount(replies[..|replies| - 1]) + if replies[|replies| - 1].BlockHash? then 1 else 0
  }

  /** How many blocks may still be sent. */
  ghost function Left(s: System): nat {
    (if s.pass.Pass? then |s.pass.todo| else 0) + HashCount(s.toClient) + |s.work.Keys|
  }

  /** No block is journaled twice. */
  ghost predicate CountOk(c: Config, s: System, f: Core) {
    f.mode == Hashing ==> c.blockSize > 0 && |f.blocks| + Left(s) <= |AllChunks(c)|
  }

  predicate StaleCompletion(p: Packet) {
    p.HashingCompleted? && p.stale
  }

  /** Blocks are being hashed, read and compared. */
  ghost predicate CompareInv(c: Config, s: System, f: Core)
    requires s.landed <= |s.history| && |s.core.replica| == |c.base| == |f.replica|
  {
    && (forall k :: 0 <= k < |s.toServer| ==> s.toServer[k].CorrectBlock? || StaleCompletion(s.toServer[k]))
    && RepliesOk(s.pass, s.toClient) && HashesOk(c, s) && WorkOk(c, s.history, s.start, s.landed, s.work)
    && f.replica == s.core.replica
    && CountOk(c, s, f)
    && (f.mode == Hashing ==> BytesOk(c, s.history, s.start, s.landed, f.blocks, f.replica, Outstanding(s)))
  }

  predicate EndsWithCommand(net: seq<Packet>) {
    net != [] && net[|net| - 1].CmdStartHashing?
  }

  /** The request for hashes is on its way, perhaps with the completion packet that it overtook. */
  predicate CommandFlying(net: seq<Packet>) {
    EndsWithCommand(net) || (net != [] && StaleCompletion(net[|net| - 1]) && EndsWithCommand(net[..|net| - 1]))
  }

  function BeforeCommand(net: seq<Packet>): seq<Packet>
    requires CommandFlying(net)
  {
    if EndsWithCommand(net) then net[..|net| - 1] else net[..|net| - 2]
  }

  /** A stale completion has ended the scan on the server: the writes up to `k` were applied at once. */
  predicate Astray(f: Core, k: int) {
    !f.synced && EmptyJournal(f) && f.goal == NoGoal && f.skip.Skip? && f.pos == k
  }

  ghost predicate ScanInv(c: Config, s: System, f: Core)
    requires s.landed <= |s.history| && |s.core.replica| == |c.base| == |f.replica|
  {
    && s.readPos == s.start <= |s.history| && s.next == s.info.length
    && f.mode != Replicating
    && (f.mode != Writing ==> f.writes == [] && f.from == s.start)
    && (f.mode == Writing ==> Astray(f, s.start))
    && (f.synced ==> f.pos <= s.start)
    && (s.owed ==> f.mode == Hashing && f.blocks == [] && s.work == map[] && (s.toServer == [] || EndsWithCommand(s.toServer)))
    && if CommandFlying(s.toServer) then
         Idle(s) && s.work == map[] && NoCommand(BeforeCommand(s.toServer))
       else CompareInv(c, s, f)
  }

  /** After the comparison: blocks and replica make a copy of the source, each byte as of some time
      up to `hi`, and the writes since the reset follow in the journal. */
  ghost predicate DrainInv(c: Config, s: System, f: Core, hi: int) {
    && NoCommand(s.toServer) && Idle(s) && s.work == map[]
    && f.mode != Replicating
    && s.start <= Sent(s) <= s.readPos && s.start <= hi <= s.readPos <= |s.history|
    && (f.mode == Writing ==> Astray(f, Sent(s)))
    && (f.synced ==> f.pos <= s.start)
    && (f.mode == JournalOverflow ==> FromHistory(s.history, f))
    && (f.mode == Hashing ==>
          && f.from == s.start
          && f.writes == s.history[s.start..Sent(s)]
          && CopiedBetween(s.history, c.base, s.start, hi, Apply(f.blocks, f.replica)))
  }

  ghost predicate LiveInv(c: Config, s: System, f: Core) {
    && NoCommand(s.toServer) && Idle(s) && s.work == map[]
    && f.mode == Writing && f.goal == NoGoal
    && 0 <= Sent(s) <= |s.history|
    && (f.synced || f.skip.Skip? ==> f.pos == Sent(s))
    && (f.synced ==> f.replica == At(s.history, c.base, Sent(s)))
  }

  // --- full replication -----------------------------------------------------------------------

  ghost predicate CopyInv(c: Config, s: System, f: Core)
    requires s.landed <= |s.history| && |f.replica| == |c.base|
  {
    && NoCommand(s.toServer) && Idle(s)
    && f.mode == Replicating && !f.synced && f.skip == NoSkip
    && s.readPos == s.start <= |s.history| && s.next == s.info.length
    && WorkOk(c, s.history, s.start, s.landed, s.work)
    && forall i: nat :: i < |c.base| ==>
         Seen(s.history, c.base, s.start, s.landed, i, f.replica[i]) || InSome(s.work.Keys, i)
  }

  /** Bytes written since the copy began are up to date; the others were right at some time since. */
  ghost predicate CatchUpInv(c: Config, s: System, f: Core, hi: nat)
    requires |f.replica| == |c.base|
  {
    && NoCommand(s.toServer) && Idle(s) && s.work == map[]
    && f.mode == Writing && f.goal == Goal(hi) && f.skip == NoSkip
    && s.start <= hi <= |s.history| && s.start <= Sent(s) <= |s.history|
    && f.pos == Sent(s) && (f.synced <==> hi <= Sent(s))
    && forall i: nat :: i < |c.base| ==>
         if Covered(s.history[s.start..Sent(s)], i) then f.replica[i] == At(s.history, c.base, Sent(s))[i]
         else Seen(s.history, c.base, s.start, hi, i, f.replica[i])
  }

  ghost predicate PhaseInv(c: Config, s: System, f: Core)
    requires s.landed <= |s.history| && |s.core.replica| == |c.base| == |f.replica|
  {
    match s.phase
    case Boot => LiveInv(c, s, f) && !f.synced && f.skip == NoSkip && !s.owed
    case Live => if s.owed then DrainInv(c, s, f, Sent(s)) else LiveInv(c, s, f)
    case Scanning => ScanInv(c, s, f)
    case Draining => DrainInv(c, s, f, s.readPos) && !s.owed
    case Copying => CopyInv(c, s, f) && !s.owed
    case CatchingUp(hi) => CatchUpInv(c, s, f, hi) && !s.owed
    case Stopped => !s.owed
  }

  ghost predicate Inv(c: Config, s: System) {
    && c.blockSize > 0
    && SourceOk(c, s.history, s.landed, s.source)
    && RingOk(s.history, s.ring, s.info, s.next, s.readPos)
    && |s.core.replica| == |c.base|
    && NetOk(c, s.history, s.core, s.toServer)
    && PhaseInv(c, s, Final(c, s))
  }
}
