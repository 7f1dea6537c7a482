/** Prefix consistency during recovery: the journal that the server has filled is the one that the crash
    machine replays, so that after any crashes the replica is the source as it was before the
    scan began or as of the last write in the journal. */
module CrashConsistency {
  import opened Images
  import opened Codec
  import opened ServerCore
  import opened Protocol
  import opened PrefixConsistency
  import Live = LiveWrites
  import Ord = ReplayOrder
  import Rec = Recovery
  import Srv = Server

  /** The journal `x` stands for the two logs and the replica of the server. */
  ghost predicate Represents(x: Rec.Scan, core: Core) {
    && Rec.AllNonEmpty(x.writes) && Rec.AllNonEmpty(x.blocks)
    && core.blocks == Writes(x.blocks) && core.writes == Writes(x.writes) && core.replica == x.before
  }

  function AtCompletion(stable: Image, disk: Image, x: Rec.Scan): Rec.Node {
    Rec.Node(stable, disk, x.before, x.before, Rec.Scanned, Rec.Mem(x.header, |x.blocks|, |x.writes|))
  }

  /** The server's journal at the end of a scan is where the crash machine starts. Once an entry has been
      appended, the cleared slots are on the device too. */
  lemma ServerStarts(s: Srv.Server)
    requires s.Valid() && s.state == Hashing && s.stable == s.replica
    requires Rec.AllNonEmpty(s.journal.writes) && Rec.AllNonEmpty(s.journal.blocks)
    ensures var j := s.journal;
            var x := Rec.Scan(j.header, j.writes, j.blocks, s.replica);
            && Represents(x, s.Core())
            && Rec.Starts(x, AtCompletion(j.stable, j.disk, x))
            && (j.writes != [] || j.blocks != [] ==> Rec.Durable(AtCompletion(j.stable, j.disk, x)))
  {
  }

  /** The operations of the server's replay, as `WriteJournalToReplica` makes them, are a run of the crash
      machine without crashes: it goes through the same devices in the same order, with nothing but
      the unsynced headers between them. */
  lemma ServerReplayIsRun(s: Srv.Server) returns (nodes: seq<Rec.Node>, moves: seq<Rec.Step>)
    requires s.Valid() && s.state == Hashing && s.stable == s.replica
    requires Rec.AllNonEmpty(s.journal.writes) && Rec.AllNonEmpty(s.journal.blocks)
    ensures var j := s.journal;
            var x := Rec.Scan(j.header, j.writes, j.blocks, s.replica);
            && Rec.IsRun(x, nodes, moves) && nodes[0] == AtCompletion(j.stable, j.disk, x) && nodes[|moves|].pc == Rec.Done
            && forall k :: 0 <= k < |moves| ==> Ord.Undisturbed(moves[k])
    ensures var j := s.journal;
            var flagged := Rec.PutHeader(j.disk, SetValid(j.header));
            var trace := Ord.ReplayTrace(flagged, Rec.PutHeader(flagged, SetInvalid(SetValid(j.header))), s.stable, s.replica,
                                         s.Core().blocks, s.Core().writes);
            && |nodes| == |trace| + 3
            && Ord.Shown(nodes)[2..|trace| + 1] == trace[..|trace| - 1]
            && Ord.Shown(nodes)[|trace| + 2] == trace[|trace| - 1]
  {
    hide Ord.ReplayTrace, Ord.Shown, Rec.IsRun, Rec.PutHeader;
    var j := s.journal;
    var x := Rec.Scan(j.header, j.writes, j.blocks, s.replica);
    ServerStarts(s);
    Rec.FlagsCancel(j.header);
    nodes, moves := Ord.ReplayIsRun(x, AtCompletion(j.stable, j.disk, x));
  }

  /** What recovery reads from the slots, entry by entry, is what the server has journaled. */
  lemma RecoveryReads(s: Srv.Server, k: nat)
    requires s.Valid() && s.state == Hashing
    requires Rec.AllNonEmpty(s.journal.writes) && Rec.AllNonEmpty(s.journal.blocks)
    requires k < |s.journal.blocks| + |s.journal.writes|
    ensures var j := s.journal;
            Rec.ReplayEntry(j.disk, Rec.Mem(j.header, |j.blocks|, |j.writes|), k) == (s.Core().blocks + s.Core().writes)[k]
  {
    var j := s.journal;
    Rec.LogEntry(Rec.Scan(j.header, j.writes, j.blocks, s.replica), j.disk, j.header, k);
  }

  lemma ScanToComplete(c: Config, states: seq<System>, steps: seq<Step>, i: nat)
    requires IsRun(c, states, steps) && CompletesScan(states, steps, i) && states[i].core.synced
    ensures i < |states|
    ensures var s := states[i];
            var lo, hi := s.core.pos, s.core.from + |s.core.writes|;
            && lo <= hi <= |s.history|
            && s.core.replica == At(s.history, c.base, lo) && Replay(s.core) == At(s.history, c.base, hi)
  {
    hide Replay;
    NextOk(c, states, steps, i);
  }

  /** Prefix consistency, even during recovery: a replica in step, a completed scan, and any crashes and
      restarts while its journal is replayed. Once the server is up again, or done, the replica is
      the source after its first `pos` writes, as before the scan, or after the last write in the
      journal, according to whether the flag has reached the device. */
  lemma RecoversAPrefix(c: Config, states: seq<System>, steps: seq<Step>, i: nat,
                        x: Rec.Scan, nodes: seq<Rec.Node>, moves: seq<Rec.Step>, k: nat)
    requires IsRun(c, states, steps) && CompletesScan(states, steps, i) && states[i].core.synced
    requires Represents(x, states[i].core) && Rec.Replayable(x)
    requires Rec.IsRun(x, nodes, moves) && Rec.Durable(nodes[0])
    requires k < |nodes| && (nodes[k].pc.Done? || nodes[k].pc.Skipped?)
    ensures var s := states[i];
            var lo, hi := s.core.pos, s.core.from + |s.core.writes|;
            && lo <= hi <= |s.history|
            && nodes[k].stable == nodes[k].cache
            && nodes[k].cache == At(s.history, c.base, if Rec.Validated(nodes, k) then hi else lo)
  {
    hide IsRun, CompletesScan, Rec.IsRun, Rec.Validated, Rec.Replayable, Replayed;
    ScanToComplete(c, states, steps, i);
    Rec.CrashAtomic(x, nodes, moves, k);
  }

  /** A crash while a live write is being applied to a replica in step: what is left is some of the bytes
      of the next write of the history over the replica as it was. */
  lemma LiveCrashTears(c: Config, states: seq<System>, steps: seq<Step>, i: nat, torn: Image)
    requires IsRun(c, states, steps) && i < |steps| && steps[i].DeliverPacket? && states[i].core.synced
    requires states[i].toServer != [] && states[i].toServer[0].BufferWrite? && states[i].core.mode == Writing
    ensures var s := states[i];
            && s.core.pos < |s.history|
            && (Torn(s.core.replica, WriteAt(s.core.replica, s.toServer[0].w), torn)
                <==> Live.CrashesAs(s.history, c.base, s.core.pos, torn))
  {
    var s := states[i];
    NextOk(c, states, steps, i);
    NextOk(c, states, steps, i + 1);
    Live.CrashOutcomes(s.history, c.base, s.core.pos, torn);
  }

  /** Whatever a crash has left, the next completed scan mends it: the client comes back with a source
      that has made the writes `past`, and after the scan the replica is the source again after a
      prefix of all its writes, those before the crash and those since. */
  lemma ScanMends(past: seq<Write>, base: Image, c: Config, states: seq<System>, steps: seq<Step>, i: nat)
    requires IsRun(c, states, steps) && CompletesScan(states, steps, i) && c.base == At(past, base, |past|)
    ensures var s := states[i];
            var k := |past| + s.core.from + |s.core.writes|;
            && k <= |past + s.history|
            && states[i + 1].core.replica == At(past + s.history, base, k)
  {
    hide IsRun, CompletesScan, At;
    ScanConverges(c, states, steps, i);
    AtJoin(past, states[i].history, base, states[i].core.from + |states[i].core.writes|);
  }
}
