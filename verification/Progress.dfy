/** What the steps of a run determine, and that the system comes to rest: apart from writes to the source
    and polls of an empty ring there is no endless work, and when nothing else is left to do
    the replica is the source. */
module Progress {
  import opened Images
  import opened Blocks
  import opened ServerCore
  import opened Protocol
  import opened Invariant
  import opened PrefixConsistency
  import R = Ring

  // --- the source ---------------------------------------------------------------------------------

  /** The writes made to the source, as the steps alone say. */
  function WritesOf(steps: seq<Step>): seq<Write> {
    if steps == [] then []
    else
      var before := WritesOf(steps[..|steps| - 1]);
      if steps[|steps| - 1].SourceWrite? then before + [steps[|steps| - 1].w] else before
  }

  /** How many of them have reached the device. */
  function LandedOf(steps: seq<Step>): nat {
    if steps == [] then 0 else LandedOf(steps[..|steps| - 1]) + if steps[|steps| - 1].WriteLands? then 1 else 0
  }

  lemma SourceStep(c: Config, s: System, step: Step)
    requires c.blockSize > 0 && Enabled(c, s, step)
    ensures Do(c, s, step).history == if step.SourceWrite? then s.history + [step.w] else s.history
    ensures Do(c, s, step).landed == if step.WriteLands? then s.landed + 1 else s.landed
  {
  }

  /** No write made to the source is missed, whatever the client and the server are doing, and each that
      reaches the device is applied to it. */
  lemma {:induction false} SourceIsRecorded(c: Config, states: seq<System>, steps: seq<Step>, j: nat)
    requires IsRun(c, states, steps) && j < |states|
    ensures states[j].history == WritesOf(steps[..j]) && states[j].landed == LandedOf(steps[..j]) <= |WritesOf(steps[..j])|
    ensures states[j].source == At(WritesOf(steps[..j]), c.base, LandedOf(steps[..j]))
  {
    hide Enabled, Do, IsRun;
    RunLength(c, states, steps);
    SourceOfRun(c, states, steps, j);
    if j == 0 {
      StartOfRun(c, states, steps);
    } else {
      SourceIsRecorded(c, states, steps, j - 1);
      RunStep(c, states, steps, j - 1);
      SourceStep(c, states[j - 1], steps[j - 1]);
      assert steps[..j][..j - 1] == steps[..j - 1];
    }
  }

  lemma StartOfRun(c: Config, states: seq<System>, steps: seq<Step>)
    requires IsRun(c, states, steps)
    ensures states[0].history == [] && states[0].landed == 0
  {
  }

  lemma SourceOfRun(c: Config, states: seq<System>, steps: seq<Step>, j: nat)
    requires IsRun(c, states, steps) && j < |states|
    ensures states[j].landed <= |states[j].history|
    ensures states[j].source == At(states[j].history, c.base, states[j].landed)
  {
    hide PhaseInv, NetOk, RingOk;
    RunKeepsInv(c, states, steps, j);
  }

  /** Writes to the source never have to wait. */
  lemma SourceNeverWaits(c: Config, s: System, w: Write)
    requires c.blockSize > 0
    ensures Enabled(c, s, SourceWrite(w))
  {
  }

  /** A run can start with any contents of the replica, any source, any ring and any journal. */
  lemma StartsFromAnything(c: Config, replica: Image, slots: seq<Write>)
    requires c.blockSize > 0 && |replica| == |c.base| && slots != []
    ensures exists s: System :: Init(c, s) && s.core.replica == replica && s.ring.slots == slots
  {
    var ring := R.New(slots);
    var core := Core(Writing, replica, [], [], false, 0, 0, NoGoal, NoSkip);
    var s := System([], 0, c.base, ring, Boot, 0, 0, R.Info(0, 0, false), 0, map[], false, [], [], false, core, NoPass);
    assert Init(c, s);
  }

  /** Nothing keeps the threads in step: whenever a block can be hashed, a byte of a block read, a block
      compared or sent, a write land or a packet arrive, in whatever order, it may do so next. */
  lemma AnyOrder(c: Config, s: System, ch: Chunk, i: nat)
    requires c.blockSize > 0
    ensures s.landed < |s.history| ==> Enabled(c, s, WriteLands)
    ensures s.toServer != [] ==> Enabled(c, s, DeliverPacket)
    ensures s.pass.Pass? && ch in s.pass.todo && ch.offset + ch.size <= |s.core.replica| ==> Enabled(c, s, HashBlock(ch))
    ensures ch in s.work && In(ch, i) && i < |s.source| && i !in s.work[ch].got && s.start <= s.landed ==>
              Enabled(c, s, ReadByte(ch, i))
    ensures s.phase.Scanning? && ch in s.work && Complete(ch, s.work[ch]) && NoCollision(c, s, ch, Buffer(ch, s.work[ch])) ==>
              Enabled(c, s, CompareBlock(ch))
    ensures s.phase.Copying? && ch in s.work && Complete(ch, s.work[ch]) ==> Enabled(c, s, SendReplicationBlock(ch))
    ensures MonitorRuns(s) && BatchSent(s) ==> Enabled(c, s, MonitorRead)
    ensures s.owed ==> Enabled(c, s, SendCompleted)
    ensures s.phase.Boot? ==>
              Enabled(c, s, StartWithScan) && Enabled(c, s, StartWithReplication) && Enabled(c, s, StartWithoutReplication)
  {
  }

  // --- work ---------------------------------------------------------------------------------------

  /** Bytes of blocks that have not been read yet. */
  ghost function Unread(work: map<Chunk, Item>): set<(Chunk, int)> {
    set ch, i | ch in work && ch.offset <= i < ch.offset + ch.size && i !in work[ch].got :: (ch, i)
  }

  ghost function Requests(net: seq<Packet>): nat {
    if net == [] then 0 else Requests(net[1..]) + if net[0].CmdStartHashing? then 1 else 0
  }

  ghost function PhaseLeft(p: Phase): nat {
    match p
    case Boot => 5
    case Scanning => 4
    case Copying => 4
    case Draining => 3
    case Live => 1
    case CatchingUp(_) => 1
    case Stopped => 0
  }

  ghost function Stage(s: System): nat {
    2 * PhaseLeft(s.phase) + if s.owed then 1 else 0
  }

  /** A scan is to follow. */
  ghost function Alarm(s: System): nat {
    if s.phase.Boot? || (s.ring.overflown && !s.phase.Stopped?) then 1 else 0
  }

  /** The work that is left, most important first: it is compared from left to right. */
  datatype Work = Work(
    alarm: nat,        // the ring has overflown, or nothing has been started yet
    stage: nat,        // stages of the scan or replication that are left
    requests: nat,     // requests for hashes on their way
    pass: nat,         // blocks to be hashed
    replies: nat,      // replies on their way
    blocks: nat,       // blocks being read
    bytes: nat,        // bytes of them to be read
    pending: nat,      // writes in the ring
    unsent: nat,       // writes of the batch to be sent
    packets: nat,      // packets on their way
    landing: nat)      // writes on their way to the source device

  ghost function WorkLeft(s: System): Work {
    Work(Alarm(s), Stage(s), Requests(s.toServer),
         if s.pass.Pass? then |s.pass.todo| + 1 else 0,
         |s.toClient|, |s.work.Keys|, |Unread(s.work)|,
         s.ring.length, if s.next <= s.info.length then s.info.length - s.next else 0,
         |s.toServer|, if s.landed <= |s.history| then |s.history| - s.landed else 0)
  }

  predicate Less(a: Work, b: Work) {
    if a.alarm != b.alarm then a.alarm < b.alarm
    else if a.stage != b.stage then a.stage < b.stage
    else if a.requests != b.requests then a.requests < b.requests
    else if a.pass != b.pass then a.pass < b.pass
    else if a.replies != b.replies then a.replies < b.replies
    else if a.blocks != b.blocks then a.blocks < b.blocks
    else if a.bytes != b.bytes then a.bytes < b.bytes
    else if a.pending != b.pending then a.pending < b.pending
    else if a.unsent != b.unsent then a.unsent < b.unsent
    else if a.packets != b.packets then a.packets < b.packets
    else a.landing < b.landing
  }

  lemma {:induction false} RequestsSnoc(net: seq<Packet>, p: Packet)
    ensures Requests(net + [p]) == Requests(net) + if p.CmdStartHashing? then 1 else 0
  {
    if net == [] {
      assert [p][1..] == [];
    } else {
      RequestsSnoc(net[1..], p);
      assert (net + [p])[1..] == net[1..] + [p];
    }
  }

  lemma FewerBytes(work: map<Chunk, Item>, ch: Chunk, i: nat, b: byte)
    requires ch in work && In(ch, i) && i !in work[ch].got
    ensures |Unread(work[ch := work[ch].(got := work[ch].got[i := b])])| < |Unread(work)|
  {
    var work' := work[ch := work[ch].(got := work[ch].got[i := b])];
    assert (ch, i as int) in Unread(work);
    assert Unread(work') == Unread(work) - {(ch, i as int)};
  }

  /** A poll of the monitor that finds nothing. */
  predicate IdlePoll(s: System, step: Step) {
    step.MonitorRead? && s.ring.length == 0
  }

  lemma ReadByteWorks(c: Config, s: System, ch: Chunk, i: nat)
    requires c.blockSize > 0 && Enabled(c, s, ReadByte(ch, i))
    ensures Less(WorkLeft(Do(c, s, ReadByte(ch, i))), WorkLeft(s))
  {
    hide Unread, Requests;
    FewerBytes(s.work, ch, i, s.source[i]);
    assert Do(c, s, ReadByte(ch, i)).work.Keys == s.work.Keys;
  }

  /** A block is done with, and at most one packet sent. */
  lemma BlockWorks(s: System, t: System, ch: Chunk)
    requires ch in s.work && t == s.(work := s.work - {ch}, toServer := t.toServer)
    requires Requests(t.toServer) == Requests(s.toServer)
    ensures Less(WorkLeft(t), WorkLeft(s))
  {
    hide Unread, Requests;
    assert t.work.Keys == s.work.Keys - {ch};
  }

  lemma CompareWorks(c: Config, s: System, ch: Chunk)
    requires c.blockSize > 0 && Enabled(c, s, CompareBlock(ch))
    ensures Less(WorkLeft(Do(c, s, CompareBlock(ch))), WorkLeft(s))
  {
    hide WorkLeft, Less, Requests;
    RequestsSnoc(s.toServer, CorrectBlock(Write(ch.offset, Buffer(ch, s.work[ch]))));
    BlockWorks(s, Do(c, s, CompareBlock(ch)), ch);
  }

  lemma SendBlockWorks(c: Config, s: System, ch: Chunk)
    requires c.blockSize > 0 && Enabled(c, s, SendReplicationBlock(ch))
    ensures Less(WorkLeft(Do(c, s, SendReplicationBlock(ch))), WorkLeft(s))
  {
    hide WorkLeft, Less, Requests;
    RequestsSnoc(s.toServer, ReplicationBlock(Write(ch.offset, Buffer(ch, s.work[ch]))));
    BlockWorks(s, Do(c, s, SendReplicationBlock(ch)), ch);
  }

  lemma SendWriteWorks(c: Config, s: System)
    requires c.blockSize > 0 && Enabled(c, s, SendWrite)
    ensures Less(WorkLeft(Do(c, s, SendWrite)), WorkLeft(s))
  {
    hide Unread, Requests;
    RequestsSnoc(s.toServer, BufferWrite(R.Decode(s.ring, s.info, s.next)));
  }

  lemma DeliverWorks(c: Config, s: System)
    requires c.blockSize > 0 && Enabled(c, s, DeliverPacket)
    ensures Less(WorkLeft(Do(c, s, DeliverPacket)), WorkLeft(s))
  {
    hide Unread, AllChunks, Deliver;
  }

  lemma StageWorks(s: System, t: System)
    requires Alarm(t) < Alarm(s) || (Alarm(t) == Alarm(s) && Stage(t) < Stage(s))
    ensures Less(WorkLeft(t), WorkLeft(s))
  {
    hide Unread, Requests;
  }

  lemma StageStepWorks(c: Config, s: System, step: Step)
    requires c.blockSize > 0 && Enabled(c, s, step)
    requires step.StartWithScan? || step.StartWithReplication? || step.StartWithoutReplication? || step.ReadBuffer?
             || step.ResumeMonitor? || step.SendCompleted? || step.FinishReplication? || step.StopClient?
             || (step.MonitorRead? && SeesOverflow(s))
    ensures Less(WorkLeft(Do(c, s, step)), WorkLeft(s))
  {
    hide WorkLeft, Less, AllChunks;
    StageWorks(s, Do(c, s, step));
  }

  lemma HashBlockWorks(c: Config, s: System, ch: Chunk)
    requires c.blockSize > 0 && Enabled(c, s, HashBlock(ch))
    ensures Less(WorkLeft(Do(c, s, HashBlock(ch))), WorkLeft(s))
  {
    hide Unread, Requests;
    assert |s.pass.todo - {ch}| == |s.pass.todo| - 1;
  }

  lemma BatchReadWorks(c: Config, s: System)
    requires c.blockSize > 0 && Enabled(c, s, MonitorRead) && !SeesOverflow(s) && s.ring.length != 0
    ensures Less(WorkLeft(Do(c, s, MonitorRead)), WorkLeft(s))
  {
    hide Unread, Requests;
  }

  lemma SmallStepWorks(c: Config, s: System, step: Step)
    requires c.blockSize > 0 && Enabled(c, s, step) && (step.EndPass? || step.WriteLands? || step.ReceiveReply?)
    ensures Less(WorkLeft(Do(c, s, step)), WorkLeft(s))
  {
    hide Unread, Requests;
  }

  /** Every step but a write to the source and an idle poll leaves less to do. */
  lemma StepWorks(c: Config, s: System, step: Step)
    requires c.blockSize > 0 && Enabled(c, s, step) && !step.SourceWrite? && !IdlePoll(s, step)
    ensures Less(WorkLeft(Do(c, s, step)), WorkLeft(s))
  {
    hide Do, Enabled, WorkLeft, Less;
    match step
    case ReadByte(ch, i) => ReadByteWorks(c, s, ch, i);
    case CompareBlock(ch) => CompareWorks(c, s, ch);
    case SendReplicationBlock(ch) => SendBlockWorks(c, s, ch);
    case SendWrite => SendWriteWorks(c, s);
    case DeliverPacket => DeliverWorks(c, s);
    case MonitorRead => if SeesOverflow(s) { StageStepWorks(c, s, step); } else { BatchReadWorks(c, s); }
    case HashBlock(ch) => HashBlockWorks(c, s, ch);
    case EndPass => SmallStepWorks(c, s, step);
    case WriteLands => SmallStepWorks(c, s, step);
    case ReceiveReply => SmallStepWorks(c, s, step);
    case _ => StageStepWorks(c, s, step);
  }

  /** A run without end. */
  ghost predicate IsEndless(c: Config, run: nat -> System, schedule: nat -> Step) {
    && Init(c, run(0))
    && forall i: nat :: Enabled(c, run(i), schedule(i)) && run(i + 1) == Do(c, run(i), schedule(i))
  }

  /** There is no endless work: in every run without end, from every moment on, a write to the source
      follows, or a poll that finds the ring empty. */
  lemma NoEndlessWork(c: Config, run: nat -> System, schedule: nat -> Step, n: nat)
    requires IsEndless(c, run, schedule)
    ensures exists i: nat :: n <= i && (schedule(i).SourceWrite? || IdlePoll(run(i), schedule(i)))
    decreases WorkLeft(run(n)).alarm, WorkLeft(run(n)).stage, WorkLeft(run(n)).requests, WorkLeft(run(n)).pass,
              WorkLeft(run(n)).replies, WorkLeft(run(n)).blocks, WorkLeft(run(n)).bytes, WorkLeft(run(n)).pending,
              WorkLeft(run(n)).unsent, WorkLeft(run(n)).packets, WorkLeft(run(n)).landing
  {
    hide Do, Enabled, WorkLeft;
    if !(schedule(n).SourceWrite? || IdlePoll(run(n), schedule(n))) {
      assert Enabled(c, run(n), schedule(n)) && run(n + 1) == Do(c, run(n), schedule(n));
      StepWorks(c, run(n), schedule(n));
      NoEndlessWork(c, run, schedule, n + 1);
    }
  }

  // --- rest -----------------------------------------------------------------------------------------

  /** Nothing is left to do but to wait for writes. */
  ghost predicate AtRest(c: Config, s: System)
    requires c.blockSize > 0
  {
    forall step :: Enabled(c, s, step) ==> step.SourceWrite? || IdlePoll(s, step)
  }

  /** Equal hashes mean equal blocks. */
  ghost predicate HashExact(c: Config) {
    forall a: seq<byte>, b: seq<byte> :: |a| == |b| && c.hash(a) == c.hash(b) ==> a == b
  }

  /** Everything has been forwarded, delivered and written. */
  predicate Settled(s: System) {
    MonitorRuns(s) && !s.owed && s.toServer == [] && BatchSent(s) && s.ring.length == 0 && Quiet(s)
  }

  /** Something is left to do. */
  ghost predicate CanGoOn(c: Config, s: System)
    requires c.blockSize > 0
  {
    exists step :: Enabled(c, s, step) && !step.SourceWrite? && !IdlePoll(s, step)
  }

  lemma WorkerGoesOn(c: Config, s: System, ch: Chunk)
    requires c.blockSize > 0 && ch in s.work && Quiet(s) && s.start <= |s.history|
    requires ch.offset + ch.size <= |s.source| == |s.core.replica|
    requires Complete(ch, s.work[ch]) ==>
               s.phase.Copying? || (s.phase.Scanning? && NoCollision(c, s, ch, Buffer(ch, s.work[ch])))
    ensures CanGoOn(c, s)
  {
    if !Complete(ch, s.work[ch]) {
      var i: int :| ch.offset <= i < ch.offset + ch.size && i !in s.work[ch].got;
      assert Enabled(c, s, ReadByte(ch, i));
    } else if s.phase.Copying? {
      assert Enabled(c, s, SendReplicationBlock(ch));
    } else {
      assert Enabled(c, s, CompareBlock(ch));
    }
  }

  lemma ScanGoesOn(c: Config, s: System, f: Core)
    requires c.blockSize > 0 && HashExact(c) && s.landed <= |s.history| && |s.core.replica| == |c.base| == |f.replica|
    requires s.phase.Scanning? && ScanInv(c, s, f) && s.toServer == [] && Quiet(s) && |s.source| == |c.base|
    ensures CanGoOn(c, s)
  {
    hide BytesOk, WorkOk, CountOk;
    if s.owed {
      assert Enabled(c, s, SendCompleted);
    } else if s.pass.Pass? {
      if s.pass.todo == {} {
        assert Enabled(c, s, EndPass);
      } else {
        var ch :| ch in s.pass.todo;
        assert ch in Outstanding(s);
        assert Enabled(c, s, HashBlock(ch));
      }
    } else if !s.toClient[0].PassCompleted? {
      assert Enabled(c, s, ReceiveReply);
    } else if s.work == map[] {
      assert Enabled(c, s, ReadBuffer);
    } else {
      var ch :| ch in s.work;
      if Complete(ch, s.work[ch]) {
        assert |Buffer(ch, s.work[ch])| == |Slice(s.core.replica, ch)|;
      }
      WorkerGoesOn(c, s, ch);
    }
  }

  lemma CopyGoesOn(c: Config, s: System, f: Core)
    requires c.blockSize > 0 && s.landed <= |s.history| && |s.core.replica| == |c.base| == |f.replica|
    requires s.phase.Copying? && CopyInv(c, s, f) && Quiet(s) && |s.source| == |c.base|
    ensures CanGoOn(c, s)
  {
    hide Seen;
    if s.work == map[] {
      assert Enabled(c, s, FinishReplication);
    } else {
      var ch :| ch in s.work;
      assert ch in s.work.Keys;
      WorkerGoesOn(c, s, ch);
    }
  }

  lemma SenderGoesOn(c: Config, s: System)
    requires c.blockSize > 0 && RingOk(s.history, s.ring, s.info, s.next, s.readPos) && !BatchSent(s)
    requires MonitorRuns(s) || s.phase.Draining?
    ensures CanGoOn(c, s)
  {
    assert Enabled(c, s, SendWrite);
  }

  lemma NeverIdleUnsettled(c: Config, s: System)
    requires Inv(c, s) && HashExact(c) && !s.phase.Stopped? && !Settled(s)
    ensures CanGoOn(c, s)
  {
    hide ScanInv, CopyInv, DrainInv, LiveInv, CatchUpInv, NetOk, RingOk, CanGoOn;
    if !Quiet(s) {
      Goes(c, s, WriteLands);
    } else if s.toServer != [] {
      Goes(c, s, DeliverPacket);
    } else if s.owed {
      Goes(c, s, SendCompleted);
    } else if s.phase.Boot? {
      Goes(c, s, StartWithScan);
    } else if s.phase.Scanning? {
      ScanGoesOn(c, s, Final(c, s));
    } else if s.phase.Copying? {
      CopyGoesOn(c, s, Final(c, s));
    } else if !BatchSent(s) {
      SenderGoesOn(c, s);
    } else if s.phase.Draining? {
      Goes(c, s, ResumeMonitor);
    } else {
      Goes(c, s, MonitorRead);
    }
  }

  lemma Goes(c: Config, s: System, step: Step)
    requires c.blockSize > 0 && Enabled(c, s, step) && !step.SourceWrite? && !IdlePoll(s, step)
    ensures CanGoOn(c, s)
  {
  }

  /** At rest, in every run: unless the client has been stopped, everything has been forwarded,
      delivered and written, and a replica in step is the source. After a full replication it is. */
  lemma RestIsSettled(c: Config, states: seq<System>, steps: seq<Step>, i: nat)
    requires IsRun(c, states, steps) && i < |states| && HashExact(c) && AtRest(c, states[i]) && !states[i].phase.Stopped?
    ensures Settled(states[i])
    ensures states[i].core.synced ==> states[i].core.replica == states[i].source
    ensures states[i].phase.CatchingUp? ==> states[i].core.synced
  {
    hide IsRun, Inv, Enabled;
    RunKeepsInv(c, states, steps, i);
    if !Settled(states[i]) {
      NeverIdleUnsettled(c, states[i]);
    }
    if states[i].core.synced {
      CaughtUp(c, states, steps, i);
    }
    CopyCaughtUp(c, states[i]);
  }

  lemma CopyCaughtUp(c: Config, s: System)
    requires Inv(c, s) && Settled(s)
    ensures s.phase.CatchingUp? ==> s.core.synced
  {
  }

  /** And rest can always be reached, without a write to the source. */
  lemma ComesToRest(c: Config, states: seq<System>, steps: seq<Step>) returns (states': seq<System>, steps': seq<Step>)
    requires IsRun(c, states, steps)
    ensures IsRun(c, states', steps') && states <= states' && AtRest(c, states'[|steps'|])
    ensures states'[|steps'|].history == states[|steps|].history
    decreases WorkLeft(states[|steps|]).alarm, WorkLeft(states[|steps|]).stage, WorkLeft(states[|steps|]).requests,
              WorkLeft(states[|steps|]).pass, WorkLeft(states[|steps|]).replies, WorkLeft(states[|steps|]).blocks,
              WorkLeft(states[|steps|]).bytes, WorkLeft(states[|steps|]).pending, WorkLeft(states[|steps|]).unsent,
              WorkLeft(states[|steps|]).packets, WorkLeft(states[|steps|]).landing
  {
    hide Do, Enabled, WorkLeft;
    var s := states[|steps|];
    if AtRest(c, s) {
      states', steps' := states, steps;
    } else {
      var step :| Enabled(c, s, step) && !step.SourceWrite? && !IdlePoll(s, step);
      StepWorks(c, s, step);
      SourceStep(c, s, step);
      states', steps' := states + [Do(c, s, step)], steps + [step];
      ExtendsRun(c, states, steps, step);
      states', steps' := ComesToRest(c, states', steps');
    }
  }
}
