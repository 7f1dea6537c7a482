/** What the server does with each packet: the dispatch of `HandleClient` with the handlers it
    hands the packet to, each packet handled to completion. */
module ServerCore {
  import opened Images

  datatype Mode = Writing | Hashing | JournalOverflow | Replicating

  /** The numbers in `CmdStartHashing` and `ReplicationCompleted` are not on the wire: they record the
      length of the source's history when the client reset its ring, and when the last block of a
      full replication had been read, so that positions in the history can be followed. Nor is
      `stale`: the next scan had been requested before this completion packet was sent. */
  datatype Packet =
    | CmdStartHashing(at: nat)
    | BufferWrite(w: Write)
    | CorrectBlock(w: Write)
    | HashingCompleted(stale: bool)
    | StartReplication
    | ReplicationBlock(w: Write)
    | ReplicationCompleted(at: nat, upTo: nat)

  /** Slots of the two sections of the journal. */
  datatype Caps = Caps(blocks: nat, writes: nat)

  /** After a full replication the replica is in step with the source once it has the writes up to
      the end of the copy. */
  datatype Goal = NoGoal | Goal(upTo: nat)

  /** A stale completion ends the scan that has just begun: the writes from `from` on are applied to
      `before`, and those that the scan was to catch up with are missing. */
  datatype Skip = NoSkip | Skip(before: Image, from: nat)

  /** The server's state, the replica and the two logs of the journal. The rest is a record kept for
      the proofs. `synced`: the last replay was of a journal that took in every packet of its scan,
      or a full replication has reached its goal. Then `pos` is how much of the source's history the
      replica has. `from` is where the journal's writes begin in it. */
  datatype Core = Core(mode: Mode, replica: Image, blocks: seq<Write>, writes: seq<Write>,
                       synced: bool, pos: nat, from: nat, goal: Goal, skip: Skip)

  /** The replica after the journal has been copied to it. */
  function Replay(c: Core): (d: Image)
    ensures |d| == |c.replica|
  {
    Replayed(c.blocks, c.writes, c.replica)
  }

  function Deliver(caps: Caps, c: Core, p: Packet): (r: Core)
    ensures |r.replica| == |c.replica|
  {
    match p
    case CmdStartHashing(at) => c.(mode := Hashing, blocks := [], writes := [], from := at, goal := NoGoal)
    case BufferWrite(w) =>
      (match c.mode
       case Hashing =>
         if |c.writes| < caps.writes then c.(writes := c.writes + [w]) else c.(mode := JournalOverflow)
       case Writing =>
         c.(replica := WriteAt(c.replica, w), pos := c.pos + 1,
            synced := c.synced || (c.goal.Goal? && c.goal.upTo <= c.pos + 1))
       case _ => c)
    case CorrectBlock(w) =>
      (match c.mode
       case Hashing =>
         if |c.blocks| < caps.blocks then c.(blocks := c.blocks + [w]) else c.(mode := JournalOverflow)
       case _ => c)
    case HashingCompleted(stale) =>
      var t := c.(mode := Writing, replica := Replay(c), goal := NoGoal);
      if stale then t.(synced := false, pos := c.from, skip := Skip(c.replica, c.from))
      else if c.mode == Hashing then t.(synced := true, pos := c.from + |c.writes|, skip := NoSkip)
      else t.(synced := false, skip := if c.mode == Writing then c.skip else NoSkip)
    case StartReplication => c.(mode := Replicating, synced := false, goal := NoGoal, skip := NoSkip)
    case ReplicationBlock(w) => if c.mode == Replicating then c.(replica := WriteAt(c.replica, w)) else c
    case ReplicationCompleted(at, upTo) =>
      c.(mode := Writing, pos := at, goal := Goal(upTo), synced := upTo <= at, skip := NoSkip)
  }

  /** The packets of a connection, in the order they were sent. */
  function Run(caps: Caps, c: Core, net: seq<Packet>): (r: Core)
    ensures |r.replica| == |c.replica|
  {
    if net == [] then c else Deliver(caps, Run(caps, c, net[..|net| - 1]), net[|net| - 1])
  }

  lemma RunSend(caps: Caps, c: Core, net: seq<Packet>, p: Packet)
    ensures Run(caps, c, net + [p]) == Deliver(caps, Run(caps, c, net), p)
  {
    assert (net + [p])[..|net|] == net;
  }

  lemma {:induction false} RunDeliver(caps: Caps, c: Core, net: seq<Packet>)
    requires net != []
    ensures Run(caps, Deliver(caps, c, net[0]), net[1..]) == Run(caps, c, net)
  {
    if |net| > 1 {
      var front := net[..|net| - 1];
      RunDeliver(caps, c, front);
      assert net[1..][..|net| - 2] == front[1..];
    } else {
      assert net[..0] == [];
    }
  }
}
