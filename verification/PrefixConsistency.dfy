/** The claim that BDR is built on, over whole runs of the system: scans and full replications
    bring the replica to the source from any contents, and from the first one on it is at all times
    the source as it was after some prefix of its writes. */
module PrefixConsistency {
  import opened Images
  import opened ServerCore
  import opened Protocol
  import opened Invariant
  import opened Preservation

  lemma {:induction false} RunKeepsInv(c: Config, states: seq<System>, steps: seq<Step>, i: nat)
    requires IsRun(c, states, steps) && i < |states|
    ensures Inv(c, states[i])
  {
    if i == 0 {
      InitHolds(c, states[0]);
    } else {
      RunKeepsInv(c, states, steps, i - 1);
      StepKeeps(c, states[i - 1], steps[i - 1]);
    }
  }

  /** What the invariant says about the server as it is, and about the next packet. */
  lemma NextOk(c: Config, states: seq<System>, steps: seq<Step>, i: nat)
    requires IsRun(c, states, steps) && i < |states|
    ensures Tracked(c, states[i].history, states[i].core)
    ensures states[i].toServer != [] ==> PacketOk(c, states[i].history, states[i].core, states[i].toServer[0])
    ensures |states[i].core.replica| == |c.base|
  {
    hide Tracked, PacketOk, PhaseInv, RingOk;
    RunKeepsInv(c, states, steps, i);
    HeadOk(c, states[i].history, states[i].core, states[i].toServer);
  }

  /** Step `i` delivers a completion packet. */
  ghost predicate Completes(states: seq<System>, steps: seq<Step>, i: nat)
    requires |states| == |steps| + 1
  {
    && i < |steps| && steps[i].DeliverPacket?
    && states[i].toServer != [] && states[i].toServer[0].HashingCompleted?
  }

  /** The packet completes a scan whose journal took in everything. */
  ghost predicate CompletesScan(states: seq<System>, steps: seq<Step>, i: nat)
    requires |states| == |steps| + 1
  {
    Completes(states, steps, i) && !states[i].toServer[0].stale && states[i].core.mode == Hashing
  }

  /** The server replays a journal that has overflown. */
  ghost predicate OverflownReplay(states: seq<System>, steps: seq<Step>, i: nat)
    requires |states| == |steps| + 1
  {
    Completes(states, steps, i) && !states[i].toServer[0].stale && states[i].core.mode == JournalOverflow
  }

  /** The packet was overtaken by the request for the next scan, which it now ends. */
  ghost predicate StaleReplay(states: seq<System>, steps: seq<Step>, i: nat)
    requires |states| == |steps| + 1
  {
    Completes(states, steps, i) && states[i].toServer[0].stale
  }

  // --- convergence --------------------------------------------------------------------------------

  /** A completed scan makes the replica, whatever it held before, the source as of the last write
      in the journal. */
  lemma ScanConverges(c: Config, states: seq<System>, steps: seq<Step>, i: nat)
    requires IsRun(c, states, steps) && CompletesScan(states, steps, i)
    ensures var s, lo := states[i], states[i].core.from;
            var hi := lo + |s.core.writes|;
            && hi <= |s.history|
            && s.core.writes == s.history[lo..hi]
            && states[i + 1].core.replica == At(s.history, c.base, hi)
    ensures i < |steps| && |states| == |steps| + 1 && states[i + 1].core.synced
  {
    NextOk(c, states, steps, i);
  }

  /** Full replication: blocks read at any times and in any order, followed by the first batch read
      after the monitor resumed (which reaches at least to `hi`), give the source as of that read. */
  lemma FullReplicationConverges(c: Config, states: seq<System>, steps: seq<Step>, i: nat)
    requires IsRun(c, states, steps) && i < |states|
    requires var s := states[i]; s.phase.CatchingUp? && s.readPos >= s.phase.hi && BatchSent(s) && s.toServer == []
    ensures states[i].readPos <= |states[i].history|
    ensures states[i].core.replica == At(states[i].history, c.base, states[i].readPos)
    ensures states[i].core.synced
  {
    RunKeepsInv(c, states, steps, i);
    CopyIsExact(c, states[i], states[i].core, states[i].phase.hi);
  }

  // --- staying in step ----------------------------------------------------------------------------

  lemma OnlyDeliveries(c: Config, s: System, step: Step)
    requires c.blockSize > 0 && Enabled(c, s, step) && !step.DeliverPacket?
    ensures Do(c, s, step).core == s.core
  {
  }

  lemma DeliverStaysSynced(c: Config, history: seq<Write>, core: Core, p: Packet)
    requires PacketOk(c, history, core, p) && core.synced
    requires p.HashingCompleted? ==> !p.stale && core.mode != JournalOverflow
    ensures Deliver(c.caps, core, p).synced && core.pos <= Deliver(c.caps, core, p).pos
  {
  }

  /** The replica falls out of step only when the server replays a journal that has overflown, or
      ends a scan with the completion packet of the one before; otherwise it only moves forward. */
  lemma StaysSynced(c: Config, states: seq<System>, steps: seq<Step>, i: nat)
    requires IsRun(c, states, steps) && i < |steps| && states[i].core.synced
    requires !OverflownReplay(states, steps, i) && !StaleReplay(states, steps, i)
    ensures states[i + 1].core.synced && states[i].core.pos <= states[i + 1].core.pos
  {
    if steps[i].DeliverPacket? {
      NextOk(c, states, steps, i);
      DeliverStaysSynced(c, states[i].history, states[i].core, states[i].toServer[0]);
    } else {
      OnlyDeliveries(c, states[i], steps[i]);
    }
  }

  /** Neither happens between states `i` and `j`. */
  ghost predicate Undisturbed(states: seq<System>, steps: seq<Step>, i: nat, j: nat)
    requires |states| == |steps| + 1
  {
    forall k: nat :: i <= k < j ==> !OverflownReplay(states, steps, k) && !StaleReplay(states, steps, k)
  }

  lemma {:induction false} SyncedSince(c: Config, states: seq<System>, steps: seq<Step>, i: nat, j: nat)
    requires IsRun(c, states, steps) && i <= j < |states|
    requires states[i].core.synced && Undisturbed(states, steps, i, j)
    ensures states[j].core.synced
  {
    if i == j {
    } else {
      SyncedSince(c, states, steps, i, j - 1);
      StaysSynced(c, states, steps, j - 1);
    }
  }

  /** Prefix consistency: from the first scan or full replication on, in every state of every run,
      across source writes, batches, ring overflows and new scans, the replica is the source after
      the first `pos` of its writes, as long as no overflown journal is replayed and no completion
      packet is overtaken. */
  lemma AlwaysAPrefix(c: Config, states: seq<System>, steps: seq<Step>, i: nat, j: nat)
    requires IsRun(c, states, steps) && i <= j < |states|
    requires states[i].core.synced && Undisturbed(states, steps, i, j)
    ensures var s := states[j];
            s.core.pos <= |s.history| && s.core.replica == At(s.history, c.base, s.core.pos)
  {
    SyncedSince(c, states, steps, i, j);
    NextOk(c, states, steps, j);
  }

  /** And it never goes back to an earlier prefix, not even when a scan restarts. */
  lemma {:induction false} NeverStepsBack(c: Config, states: seq<System>, steps: seq<Step>, i: nat, j: nat)
    requires IsRun(c, states, steps) && i <= j < |states|
    requires states[i].core.synced && Undisturbed(states, steps, i, j)
    ensures states[i].core.pos <= states[j].core.pos
  {
    if i == j {
    } else {
      NeverStepsBack(c, states, steps, i, j - 1);
      SyncedSince(c, states, steps, i, j - 1);
      StaysSynced(c, states, steps, j - 1);
    }
  }

  /** When everything has been forwarded and delivered, the replica is the source itself. */
  lemma CaughtUp(c: Config, states: seq<System>, steps: seq<Step>, i: nat)
    requires IsRun(c, states, steps) && i < |states|
    requires var s := states[i]; MonitorRuns(s) && !s.owed && s.core.synced && s.toServer == [] && BatchSent(s)
                                 && s.ring.length == 0 && Quiet(s)
    ensures states[i].core.replica == states[i].source
  {
    RunKeepsInv(c, states, steps, i);
    NextOk(c, states, steps, i);
  }

  /** A batch read while catching up covers everything written during the copy. */
  lemma BatchCoversCopy(c: Config, states: seq<System>, steps: seq<Step>, i: nat)
    requires IsRun(c, states, steps) && i < |steps| && steps[i].MonitorRead?
    requires states[i].phase.CatchingUp? && !SeesOverflow(states[i])
    ensures states[i + 1].readPos == |states[i].history| >= states[i].phase.hi
  {
    RunKeepsInv(c, states, steps, i);
  }

  // --- when a scan is begun before the completion packet of the last one is sent ----------------

  /** The monitor begins a scan while the listener still owes the completion packet. */
  ghost predicate Overtakes(states: seq<System>, steps: seq<Step>, i: nat)
    requires |states| == |steps| + 1
  {
    i < |steps| && steps[i].MonitorRead? && SeesOverflow(states[i]) && states[i].owed
  }

  ghost predicate ScansWait(states: seq<System>, steps: seq<Step>, j: nat)
    requires |states| == |steps| + 1
  {
    forall k: nat :: k < j ==> !Overtakes(states, steps, k)
  }

  ghost predicate NothingStale(s: System) {
    (s.owed ==> s.phase.Live?) && forall p :: p in s.toServer ==> !StaleCompletion(p)
  }

  lemma NothingStaleStep(c: Config, s: System, step: Step)
    requires c.blockSize > 0 && Enabled(c, s, step) && NothingStale(s)
    requires !(step.MonitorRead? && SeesOverflow(s) && s.owed)
    ensures NothingStale(Do(c, s, step))
  {
  }

  /** Only such a scan makes a completion packet stale. */
  lemma {:induction false} NoStaleReplay(c: Config, states: seq<System>, steps: seq<Step>, j: nat)
    requires IsRun(c, states, steps) && j < |states| && ScansWait(states, steps, j)
    ensures NothingStale(states[j]) && !StaleReplay(states, steps, j)
  {
    if j == 0 {
    } else {
      NoStaleReplay(c, states, steps, j - 1);
      assert !Overtakes(states, steps, j - 1);
      NothingStaleStep(c, states[j - 1], steps[j - 1]);
      assert states[j].toServer != [] ==> !StaleCompletion(states[j].toServer[0]);
    }
  }

  /** Prefix consistency in terms of what the client does and whether the journal overflows. */
  lemma PrefixIfScansWait(c: Config, states: seq<System>, steps: seq<Step>, i: nat, j: nat)
    requires IsRun(c, states, steps) && i <= j < |states| && states[i].core.synced
    requires ScansWait(states, steps, j) && forall k: nat :: i <= k < j ==> !OverflownReplay(states, steps, k)
    ensures var s := states[j];
            s.core.pos <= |s.history| && s.core.replica == At(s.history, c.base, s.core.pos)
  {
    forall k: nat | i <= k < j ensures !StaleReplay(states, steps, k) {
      NoStaleReplay(c, states, steps, k);
    }
    AlwaysAPrefix(c, states, steps, i, j);
  }

  /** A stale completion leaves the replica as it is: the journal has just been cleared. */
  lemma StaleReplayLeaves(c: Config, states: seq<System>, steps: seq<Step>, i: nat)
    requires IsRun(c, states, steps) && StaleReplay(states, steps, i)
    ensures states[i + 1].core.replica == states[i].core.replica
    ensures states[i + 1].core.mode == Writing
    ensures states[i + 1].core.skip == Skip(states[i].core.replica, states[i].core.from)
  {
    NextOk(c, states, steps, i);
  }

  /** No request for hashes is delivered between states `i` and `j`. */
  ghost predicate NoNewScan(states: seq<System>, steps: seq<Step>, i: nat, j: nat)
    requires |states| == |steps| + 1
  {
    forall k: nat :: i <= k < j && k < |steps| && steps[k].DeliverPacket? && states[k].toServer != []
      ==> !states[k].toServer[0].CmdStartHashing?
  }

  lemma DeliverKeepsSkip(c: Config, history: seq<Write>, core: Core, p: Packet)
    requires PacketOk(c, history, core, p) && core.mode == Writing && core.skip.Skip? && !p.CmdStartHashing?
    ensures Deliver(c.caps, core, p).mode == Writing && Deliver(c.caps, core, p).skip == core.skip
  {
  }

  /** Until the next scan, the server goes on writing to the replica that the scan should have mended. */
  lemma {:induction false} SkipLasts(c: Config, states: seq<System>, steps: seq<Step>, i: nat, j: nat)
    requires IsRun(c, states, steps) && StaleReplay(states, steps, i) && i < j < |states|
    requires NoNewScan(states, steps, i + 1, j)
    ensures states[j].core.mode == Writing && states[j].core.skip == Skip(states[i].core.replica, states[i].core.from)
  {
    hide Tracked, PacketOk, Deliver;
    if j == i + 1 {
      StaleReplayLeaves(c, states, steps, i);
    } else {
      SkipLasts(c, states, steps, i, j - 1);
      if steps[j - 1].DeliverPacket? {
        NextOk(c, states, steps, j - 1);
        DeliverKeepsSkip(c, states[j - 1].history, states[j - 1].core, states[j - 1].toServer[0]);
      } else {
        OnlyDeliveries(c, states[j - 1], steps[j - 1]);
      }
    }
  }

  /** What a stale completion costs, exactly. Until the next scan the replica is what it was then, with
      the writes logged since the ring was reset. It is the source after those writes if and only
      if, wherever they did not go, it already was the source at the reset: the writes between
      `pos` and the reset, which the scan was to bring, are missing. */
  lemma SkippedWrites(c: Config, states: seq<System>, steps: seq<Step>, i: nat, j: nat)
    requires IsRun(c, states, steps) && StaleReplay(states, steps, i) && i < j < |states|
    requires NoNewScan(states, steps, i + 1, j)
    ensures var s, was := states[j], states[i].core;
            && was.from <= s.core.pos <= |s.history|
            && s.core.replica == Apply(s.history[was.from..s.core.pos], was.replica)
            && (s.core.replica == At(s.history, c.base, s.core.pos)
                <==> AgreeOutside(s.history[was.from..s.core.pos], was.replica, At(s.history, c.base, was.from)))
    ensures states[i].core.synced ==>
              && states[i].core.pos <= states[i].core.from <= |states[i].history|
              && states[i].core.replica == At(states[i].history, c.base, states[i].core.pos)
  {
    NextOk(c, states, steps, i);
    NextOk(c, states, steps, j);
    SkipLasts(c, states, steps, i, j);
    var s, was := states[j], states[i].core;
    LogRepairsExactly(s.history, c.base, was.from, s.core.pos, was.replica);
  }

  /** And it is still the source at its old position if and only if those writes repeat what it holds; so
      it is until the first of them arrives. */
  lemma SkippedWritesKeep(c: Config, states: seq<System>, steps: seq<Step>, i: nat, j: nat)
    requires IsRun(c, states, steps) && StaleReplay(states, steps, i) && i < j < |states|
    requires NoNewScan(states, steps, i + 1, j) && states[i].core.synced
    ensures var s, was := states[j], states[i].core;
            && was.pos <= was.from <= s.core.pos <= |s.history|
            && (s.core.replica == At(s.history, c.base, was.pos)
                <==> Repeats(s.history[was.from..s.core.pos], was.replica))
            && (s.core.pos == was.from ==> s.core.replica == At(s.history, c.base, was.pos))
  {
    hide IsRun;
    SkippedWrites(c, states, steps, i, j);
    HistoryExtends(c, states, steps, i, j);
    var s, was := states[j], states[i].core;
    AtExtends(states[i].history, s.history[|states[i].history|..], c.base, was.pos);
    LeavesExactly(s.history[was.from..s.core.pos], was.replica);
    assert s.history[was.from..was.from] == [];
  }

  lemma HistoryStep(c: Config, s: System, step: Step)
    requires c.blockSize > 0 && Enabled(c, s, step)
    ensures s.history <= Do(c, s, step).history
  {
  }

  lemma RunStep(c: Config, states: seq<System>, steps: seq<Step>, i: nat)
    requires IsRun(c, states, steps) && i < |steps|
    ensures |states| == |steps| + 1 && c.blockSize > 0
    ensures Enabled(c, states[i], steps[i]) && states[i + 1] == Do(c, states[i], steps[i])
  {
  }

  lemma ExtendsRun(c: Config, states: seq<System>, steps: seq<Step>, step: Step)
    requires IsRun(c, states, steps) && Enabled(c, states[|steps|], step)
    ensures IsRun(c, states + [Do(c, states[|steps|], step)], steps + [step])
  {
    hide Enabled, Do;
    var states', steps' := states + [Do(c, states[|steps|], step)], steps + [step];
    forall i | 0 <= i < |steps'|
      ensures Enabled(c, states'[i], steps'[i]) && states'[i + 1] == Do(c, states'[i], steps'[i])
    {
      if i < |steps| {
        assert Enabled(c, states[i], steps[i]);
      }
    }
  }

  lemma RunLength(c: Config, states: seq<System>, steps: seq<Step>)
    requires IsRun(c, states, steps)
    ensures |states| == |steps| + 1
  {
  }

  lemma {:induction false} HistoryExtends(c: Config, states: seq<System>, steps: seq<Step>, i: nat, j: nat)
    requires IsRun(c, states, steps) && i <= j < |states|
    ensures states[i].history <= states[j].history
    ensures states[j].history == states[i].history + states[j].history[|states[i].history|..]
  {
    hide IsRun, Do, Enabled;
    RunLength(c, states, steps);
    if i == j {
    } else {
      HistoryExtends(c, states, steps, i, j - 1);
      RunStep(c, states, steps, j - 1);
      HistoryStep(c, states[j - 1], steps[j - 1]);
    }
  }

  /** What the replay of an overflown journal leaves, exactly. It is the source after the last write
      that the journal took if and only if the blocks that it took had mended the replica wherever
      those writes do not go. */
  lemma OverflownReplayExactly(c: Config, states: seq<System>, steps: seq<Step>, i: nat)
    requires IsRun(c, states, steps) && OverflownReplay(states, steps, i)
    ensures var s, was := states[i + 1], states[i].core;
            var end := was.from + |was.writes|;
            && end <= |s.history| && was.writes == s.history[was.from..end]
            && (s.core.replica == At(s.history, c.base, end)
                <==> AgreeOutside(was.writes, Apply(was.blocks, was.replica), At(s.history, c.base, was.from)))
  {
    hide Tracked;
    NextOk(c, states, steps, i);
    var s, was := states[i], states[i].core;
    LogRepairsExactly(s.history, c.base, was.from, was.from + |was.writes|, Apply(was.blocks, was.replica));
  }

  /** And a replica in step is still the source at its old position if and only if the journal repeats
      what it holds, as an empty one does. */
  lemma OverflownReplayKeeps(c: Config, states: seq<System>, steps: seq<Step>, i: nat)
    requires IsRun(c, states, steps) && OverflownReplay(states, steps, i) && states[i].core.synced
    ensures var s, was := states[i + 1], states[i].core;
            && was.pos <= |s.history|
            && (s.core.replica == At(s.history, c.base, was.pos) <==> Repeats(was.blocks + was.writes, was.replica))
            && (was.blocks == [] && was.writes == [] ==> s.core.replica == At(s.history, c.base, was.pos))
  {
    NextOk(c, states, steps, i);
    var was := states[i].core;
    ApplyConcat(was.blocks, was.writes, was.replica);
    LeavesExactly(was.blocks + was.writes, was.replica);
  }

  // --- journal overflow ---------------------------------------------------------------------------

  ghost predicate Overflows(states: seq<System>, steps: seq<Step>, i: nat)
    requires |states| == |steps| + 1
  {
    i < |steps| && states[i].core.mode != JournalOverflow && states[i + 1].core.mode == JournalOverflow
  }

  /** A section with a slot for every block of the device takes every correct block, and the section
      for writes overflows only if the source has made more writes since the scan began than it
      has slots. */
  lemma OverflowCause(c: Config, states: seq<System>, steps: seq<Step>, i: nat)
    requires IsRun(c, states, steps) && Overflows(states, steps, i)
    ensures states[i].toServer != []
    ensures if states[i].toServer[0].CorrectBlock? then c.caps.blocks < |AllChunks(c)|
            else c.caps.writes < |states[i].history| - states[i].core.from
  {
    if steps[i].DeliverPacket? {
      NextOk(c, states, steps, i);
    } else {
      OnlyDeliveries(c, states[i], steps[i]);
    }
  }

  /** The client is told of an overflow, and from then on is stopped or can be, unless the listener is
      still sending a completion packet. */
  lemma {:induction false} OverflowIsAnnounced(c: Config, states: seq<System>, steps: seq<Step>, i: nat, j: nat)
    requires IsRun(c, states, steps) && Overflows(states, steps, i) && i < j < |states|
    ensures states[j].overflowNotice
    ensures states[j].phase.Stopped? || states[j].owed || Enabled(c, states[j], StopClient)
  {
    hide IsRun, Do;
    RunLength(c, states, steps);
    RunStep(c, states, steps, j - 1);
    NoticeStep(c, states[j - 1], steps[j - 1]);
    if j == i + 1 {
    } else {
      OverflowIsAnnounced(c, states, steps, i, j - 1);
    }
  }

  lemma NoticeStep(c: Config, s: System, step: Step)
    requires c.blockSize > 0 && Enabled(c, s, step)
    ensures Do(c, s, step).overflowNotice <==>
              s.overflowNotice || (s.core.mode != JournalOverflow && Do(c, s, step).core.mode == JournalOverflow)
  {
  }

  /** The journal does not overflow in a run of a system whose journal has a slot for every block,
      and for every write that the source makes while a scan is under way. */
  lemma {:induction false} NoJournalOverflow(c: Config, states: seq<System>, steps: seq<Step>, i: nat)
    requires IsRun(c, states, steps) && i < |states|
    requires |AllChunks(c)| <= c.caps.blocks
    requires forall k: nat :: k < i && states[k].core.mode == Hashing
               ==> |states[k].history| - states[k].core.from <= c.caps.writes
    ensures states[i].core.mode != JournalOverflow
  {
    if i == 0 {
    } else {
      NoJournalOverflow(c, states, steps, i - 1);
      if Overflows(states, steps, i - 1) {
        OverflowCause(c, states, steps, i - 1);
        OverflowsFromHashing(c, states, steps, i - 1);
      }
    }
  }

  lemma OverflowsFromHashing(c: Config, states: seq<System>, steps: seq<Step>, i: nat)
    requires IsRun(c, states, steps) && Overflows(states, steps, i)
    ensures states[i].core.mode == Hashing
  {
    if !steps[i].DeliverPacket? {
      OnlyDeliveries(c, states[i], steps[i]);
    }
  }

  /** The writes that the listener sends before it resumes the monitor are one batch, which leaves a
      slot of the ring free. What the monitor adds before the completion packet is sent has no
      such bound. */
  lemma DrainedBatch(c: Config, states: seq<System>, steps: seq<Step>, i: nat)
    requires IsRun(c, states, steps) && i < |steps| && steps[i].ReadBuffer? && !SeesOverflow(states[i])
    ensures var s := states[i + 1];
            s.phase.Draining? && s.readPos - s.start == s.info.length <= |s.ring.slots| - 1
  {
    RunKeepsInv(c, states, steps, i);
  }
}
