/** Runs of the system, step by step from the start, in which the replica is brought into step with the
    source and then falls out of it: one in which a scan is begun before the completion packet of
    the last one has been sent, and one in which the journal overflows. */
module Runs {
  import opened Images
  import opened Blocks
  import opened ServerCore
  import opened Protocol
  import opened PrefixConsistency
  import opened Invariant
  import R = Ring

  // --- building a run ---------------------------------------------------------------------------

  /** The run ends in state `s`. */
  ghost predicate Ends(c: Config, states: seq<System>, steps: seq<Step>, s: System) {
    |states| == |steps| + 1 && IsRun(c, states, steps) && states[|steps|] == s
  }

  lemma Go(c: Config, states: seq<System>, steps: seq<Step>, s: System, step: Step)
      returns (states': seq<System>, steps': seq<Step>)
    requires Ends(c, states, steps, s) && c.blockSize > 0 && Enabled(c, s, step)
    ensures Ends(c, states', steps', Do(c, s, step)) && states <= states'
    ensures steps' == steps + [step]
  {
    states', steps' := states + [Do(c, s, step)], steps + [step];
    ExtendsRun(c, states, steps, step);
  }

  // --- a device of one block ----------------------------------------------------------------------

  const BLOCK := Chunk(0, 2)

  function Hash(bs: seq<byte>): nat {
    if |bs| == 2 then var low: int, high: int := bs[0], bs[1]; low + 256 * high else 0
  }

  function Small(caps: Caps): Config {
    Config([0, 0], 2, caps, Hash)
  }

  lemma OneBlock(caps: Caps)
    ensures AllChunks(Small(caps)) == {BLOCK}
  {
    assert Chunks(0, 2, 2) == [BLOCK];
  }

  /** The server is hashing and the client knows. */
  predicate PassRuns(s: System) {
    && s.phase == Scanning && !s.owed && s.pass == Pass({BLOCK}) && s.toClient == [PassStarted] && s.work == map[]
    && |s.core.replica| == 2 == |s.source|
  }

  /** The block is hashed and its hash received. */
  lemma HashReceived(c: Config, states: seq<System>, steps: seq<Step>, s: System)
      returns (states': seq<System>, steps': seq<Step>)
    requires Ends(c, states, steps, s) && PassRuns(s) && c.blockSize > 0
    ensures Ends(c, states', steps',
                 s.(pass := NoPass, toClient := [PassCompleted], work := map[BLOCK := Item(c.hash(s.core.replica), map[])]))
    ensures states <= states'
  {
    hide IsRun;
    var h := c.hash(s.core.replica);
    assert Slice(s.core.replica, BLOCK) == s.core.replica;
    states', steps' := Go(c, states, steps, s, HashBlock(BLOCK));
    var s1 := s.(pass := Pass({}), toClient := [PassStarted, BlockHash(BLOCK, h)]);
    assert {BLOCK} - {BLOCK} == {};
    assert Do(c, s, HashBlock(BLOCK)) == s1;
    states', steps' := Go(c, states', steps', s1, EndPass);
    var s2 := s.(pass := NoPass, toClient := [PassStarted, BlockHash(BLOCK, h), PassCompleted]);
    assert Do(c, s1, EndPass) == s2;
    states', steps' := Go(c, states', steps', s2, ReceiveReply);
    var s3 := s2.(toClient := [BlockHash(BLOCK, h), PassCompleted]);
    assert Do(c, s2, ReceiveReply) == s3;
    states', steps' := Go(c, states', steps', s3, ReceiveReply);
    assert Do(c, s3, ReceiveReply) == s3.(toClient := [PassCompleted], work := map[BLOCK := Item(h, map[])]);
  }

  lemma ReadOne(c: Config, states: seq<System>, steps: seq<Step>, s: System, i: nat)
      returns (states': seq<System>, steps': seq<Step>)
    requires Ends(c, states, steps, s) && c.blockSize > 0 && |s.source| == 2 && i < 2 && s.start <= s.landed
    requires s.work.Keys == {BLOCK} && i !in s.work[BLOCK].got
    ensures var item := s.work[BLOCK];
            Ends(c, states', steps', s.(work := map[BLOCK := item.(got := item.got[i := s.source[i]])]))
    ensures states <= states'
  {
    hide IsRun;
    states', steps' := Go(c, states, steps, s, ReadByte(BLOCK, i));
    var item := s.work[BLOCK];
    assert Do(c, s, ReadByte(BLOCK, i)).work == map[BLOCK := item.(got := item.got[i := s.source[i]])];
  }

  /** The block has been read as `buf`. */
  predicate BlockRead(s: System, hash: nat, buf: seq<byte>) {
    |buf| == 2 && s.phase == Scanning && s.work == map[BLOCK := Item(hash, map[0 := buf[0], 1 := buf[1]])]
  }

  lemma Compared(c: Config, states: seq<System>, steps: seq<Step>, s: System, buf: seq<byte>)
      returns (states': seq<System>, steps': seq<Step>)
    requires Ends(c, states, steps, s) && c.blockSize > 0 && |s.core.replica| == 2
    requires BlockRead(s, c.hash(s.core.replica), buf) && (c.hash(buf) == c.hash(s.core.replica) ==> buf == s.core.replica)
    ensures var t := s.(work := map[]);
            Ends(c, states', steps', if buf == s.core.replica then t else Send(t, CorrectBlock(Write(0, buf))))
    ensures states <= states'
  {
    hide IsRun;
    assert Slice(s.core.replica, BLOCK) == s.core.replica;
    assert Complete(BLOCK, s.work[BLOCK]) && Buffer(BLOCK, s.work[BLOCK]) == buf;
    assert s.work - {BLOCK} == map[];
    states', steps' := Go(c, states, steps, s, CompareBlock(BLOCK));
  }

  /** An empty ring of two slots, with nothing left to send. */
  predicate EmptyRing(s: System) {
    && |s.ring.slots| == 2 && s.ring == R.Ring(s.ring.slots, 0, 0, 0, false)
    && s.info == R.Info(0, 0, false) && s.next == 0
  }

  /** The request for hashes arrives. */
  lemma CommandDelivered(c: Config, states: seq<System>, steps: seq<Step>, s: System)
      returns (states': seq<System>, steps': seq<Step>)
    requires Ends(c, states, steps, s) && c == Small(c.caps) && Idle(s)
    requires s.toServer != [] && s.toServer[0].CmdStartHashing?
    ensures Ends(c, states', steps',
                 s.(toServer := s.toServer[1..], core := Deliver(c.caps, s.core, s.toServer[0]),
                    pass := Pass({BLOCK}), toClient := [PassStarted]))
    ensures states <= states'
  {
    hide IsRun;
    OneBlock(c.caps);
    states', steps' := Go(c, states, steps, s, DeliverPacket);
  }

  /** The block is hashed, read and compared. */
  lemma BlockCompared(c: Config, states: seq<System>, steps: seq<Step>, s: System)
      returns (states': seq<System>, steps': seq<Step>)
    requires Ends(c, states, steps, s) && c == Small(c.caps) && PassRuns(s) && s.start <= s.landed
    ensures var t := s.(pass := NoPass, toClient := [PassCompleted]);
            Ends(c, states', steps', if s.source == s.core.replica then t else Send(t, CorrectBlock(Write(0, s.source))))
    ensures states <= states'
  {
    hide IsRun;
    var h := c.hash(s.core.replica);
    states', steps' := HashReceived(c, states, steps, s);
    var s1 := s.(pass := NoPass, toClient := [PassCompleted], work := map[BLOCK := Item(h, map[])]);
    states', steps' := ReadOne(c, states', steps', s1, 0);
    var s2 := s1.(work := map[BLOCK := Item(h, map[0 := s.source[0]])]);
    states', steps' := ReadOne(c, states', steps', s2, 1);
    var s3 := s1.(work := map[BLOCK := Item(h, map[0 := s.source[0], 1 := s.source[1]])]);
    HashIsExact(s.source, s.core.replica);
    states', steps' := Compared(c, states', steps', s3, s.source);
    assert s3.(work := map[]) == s.(pass := NoPass, toClient := [PassCompleted]);
  }

  lemma HashIsExact(a: seq<byte>, b: seq<byte>)
    requires |a| == |b| == 2
    ensures Hash(a) == Hash(b) <==> a == b
  {
  }

  /** The listener reads the buffer, finds nothing to send and resumes the monitor. */
  lemma Resumes(c: Config, states: seq<System>, steps: seq<Step>, s: System)
      returns (states': seq<System>, steps': seq<Step>)
    requires Ends(c, states, steps, s) && c.blockSize > 0 && EmptyRing(s)
    requires s.phase == Scanning && !s.owed && s.toClient == [PassCompleted] && s.work == map[]
    ensures Ends(c, states', steps', s.(toClient := [], phase := Live, owed := true)) && states <= states'
  {
    hide IsRun;
    states', steps' := Go(c, states, steps, s, ReadBuffer);
    var s1 := s.(toClient := [], phase := Draining);
    assert Do(c, s, ReadBuffer) == s1;
    states', steps' := Go(c, states', steps', s1, ResumeMonitor);
  }

  /** A scan that finds the replica equal to the source, up to the resumption of the monitor. */
  lemma QuietScan(c: Config, states: seq<System>, steps: seq<Step>, s: System, at: nat)
      returns (states': seq<System>, steps': seq<Step>)
    requires Ends(c, states, steps, s) && c == Small(c.caps) && EmptyRing(s) && Idle(s)
    requires s.phase == Scanning && !s.owed && s.toServer == [CmdStartHashing(at)] && s.work == map[]
    requires s.source == s.core.replica && |s.source| == 2 && s.start <= s.landed
    ensures Ends(c, states', steps',
                 s.(toServer := [], core := Deliver(c.caps, s.core, CmdStartHashing(at)), phase := Live, owed := true))
    ensures states <= states'
  {
    hide IsRun;
    states', steps' := CommandDelivered(c, states, steps, s);
    var core := Deliver(c.caps, s.core, CmdStartHashing(at));
    var s1 := s.(toServer := [], core := core, pass := Pass({BLOCK}), toClient := [PassStarted]);
    states', steps' := BlockCompared(c, states', steps', s1);
    var s2 := s.(toServer := [], core := core, toClient := [PassCompleted]);
    states', steps' := Resumes(c, states', steps', s2);
    assert s2.(toClient := [], phase := Live, owed := true)
           == s.(toServer := [], core := core, phase := Live, owed := true);
  }

  /** The ring overflows under the monitor, which begins a scan. */
  lemma Overflown(c: Config, states: seq<System>, steps: seq<Step>, s: System, w: Write)
      returns (states': seq<System>, steps': seq<Step>)
    requires Ends(c, states, steps, s) && c.blockSize > 0 && EmptyRing(s) && s.phase == Live && Quiet(s)
    ensures var n := |s.history| + 2;
            Ends(c, states', steps',
                 s.(history := s.history + [w, w], landed := n, source := WriteAt(WriteAt(s.source, w), w),
                    ring := R.Ring(s.ring.slots[0 := w], 0, 0, 0, false), phase := Scanning, start := n, readPos := n,
                    work := map[], toServer := s.toServer + [CmdStartHashing(n)]))
    ensures states <= states'
  {
    hide IsRun;
    var slots := s.ring.slots[0 := w];
    states', steps' := Go(c, states, steps, s, SourceWrite(w));
    var s1 := s.(history := s.history + [w], ring := R.Ring(slots, 0, 1, 0, false));
    assert Do(c, s, SourceWrite(w)) == s1;
    states', steps' := Go(c, states', steps', s1, SourceWrite(w));
    assert s.history + [w] + [w] == s.history + [w, w];
    var s2 := s.(history := s.history + [w, w], ring := R.Ring(slots, 0, 2, 0, true));
    assert Do(c, s1, SourceWrite(w)) == s2;
    states', steps' := Go(c, states', steps', s2, WriteLands);
    var s3 := s2.(landed := s.landed + 1, source := WriteAt(s.source, w));
    assert Do(c, s2, WriteLands) == s3;
    states', steps' := Go(c, states', steps', s3, WriteLands);
    var s4 := s3.(landed := s.landed + 2, source := WriteAt(WriteAt(s.source, w), w));
    assert Do(c, s3, WriteLands) == s4;
    states', steps' := Go(c, states', steps', s4, MonitorRead);
  }

  // --- the replica comes into step ----------------------------------------------------------------

  const NOTHING := Write(0, [])
  const ZERO := Write(0, [0])

  const BEFORE := System([], 0, [0, 0], R.Ring([NOTHING, NOTHING], 0, 0, 0, false), Boot, 0, 0, R.Info(0, 0, false), 0,
                         map[], false, [], [], false, Core(Writing, [0, 0], [], [], false, 0, 0, NoGoal, NoSkip), NoPass)

  const IN_STEP := BEFORE.(phase := Live, core := Core(Writing, [0, 0], [], [], true, 0, 0, NoGoal, NoSkip))

  lemma Begins(c: Config) returns (states: seq<System>, steps: seq<Step>)
    requires c == Small(c.caps)
    ensures Ends(c, states, steps, BEFORE)
  {
    states, steps := [BEFORE], [];
    assert R.Pending(BEFORE.ring) == [];
  }

  /** The first scan, up to the resumption of the monitor. */
  lemma FirstScanSent(c: Config) returns (states: seq<System>, steps: seq<Step>)
    requires c == Small(c.caps)
    ensures Ends(c, states, steps,
                 BEFORE.(phase := Live, core := Core(Hashing, [0, 0], [], [], false, 0, 0, NoGoal, NoSkip), owed := true))
  {
    hide IsRun;
    states, steps := Begins(c);
    states, steps := Go(c, states, steps, BEFORE, StartWithScan);
    var s1 := BEFORE.(phase := Scanning, toServer := [CmdStartHashing(0)]);
    assert Do(c, BEFORE, StartWithScan) == s1;
    states, steps := QuietScan(c, states, steps, s1, 0);
  }

  lemma FirstScan(c: Config) returns (states: seq<System>, steps: seq<Step>)
    requires c == Small(c.caps)
    ensures Ends(c, states, steps, IN_STEP)
  {
    hide IsRun;
    states, steps := FirstScanSent(c);
    var core := Core(Hashing, [0, 0], [], [], false, 0, 0, NoGoal, NoSkip);
    var s2 := BEFORE.(phase := Live, core := core, owed := true);
    states, steps := Go(c, states, steps, s2, SendCompleted);
    var s3 := BEFORE.(phase := Live, core := core, toServer := [HashingCompleted(false)]);
    assert Do(c, s2, SendCompleted) == s3;
    states, steps := Go(c, states, steps, s3, DeliverPacket);
    assert Do(c, s3, DeliverPacket) == IN_STEP;
  }

  /** Two writes that change nothing make the ring overflow, and the scan finds no difference. */
  lemma SecondScan(c: Config) returns (states: seq<System>, steps: seq<Step>, i: nat)
    requires c == Small(c.caps)
    ensures var w := ZERO;
            Ends(c, states, steps,
                 IN_STEP.(history := [w, w], landed := 2, ring := R.Ring([w, NOTHING], 0, 0, 0, false), start := 2,
                          readPos := 2, phase := Scanning, toServer := [CmdStartHashing(2)]))
    ensures i < |states| && states[i] == IN_STEP
  {
    hide IsRun;
    var w := ZERO;
    states, steps := FirstScan(c);
    i := |steps|;
    assert WriteAt([0, 0], w) == [0, 0];
    assert [] + [w, w] == [w, w] && [] + [CmdStartHashing(2)] == [CmdStartHashing(2)];
    assert [NOTHING, NOTHING][0 := w] == [w, NOTHING];
    states, steps := Overflown(c, states, steps, IN_STEP, w);
  }

  // --- a completion packet is overtaken -------------------------------------------------------------

  const FIRST := Write(0, [1])
  const SECOND := Write(1, [1])

  /** The state in which the overtaken packet and the request that overtook it have been sent. */
  const OVERTAKEN := IN_STEP.(history := [ZERO, ZERO, FIRST, FIRST], landed := 4, source := [1, 0],
                              ring := R.Ring([FIRST, NOTHING], 0, 0, 0, false), start := 4, readPos := 4,
                              phase := Scanning, core := IN_STEP.core.(mode := Hashing, from := 2),
                              toServer := [CmdStartHashing(4), HashingCompleted(true)])

  lemma Overtaking(c: Config) returns (states: seq<System>, steps: seq<Step>, i: nat)
    requires c == Small(c.caps)
    ensures Ends(c, states, steps, OVERTAKEN)
    ensures i < |states| && states[i] == IN_STEP
  {
    hide IsRun;
    states, steps, i := SecondScan(c);
    var s := IN_STEP.(history := [ZERO, ZERO], landed := 2, ring := R.Ring([ZERO, NOTHING], 0, 0, 0, false), start := 2,
                      readPos := 2, phase := Scanning, toServer := [CmdStartHashing(2)]);
    states, steps := QuietScan(c, states, steps, s, 2);
    var s1 := s.(toServer := [], core := IN_STEP.core.(mode := Hashing, from := 2), phase := Live, owed := true);
    states, steps := Overflown(c, states, steps, s1, FIRST);
    assert WriteAt([0, 0], FIRST) == [1, 0] && WriteAt([1, 0], FIRST) == [1, 0];
    assert [ZERO, ZERO] + [FIRST, FIRST] == [ZERO, ZERO, FIRST, FIRST];
    assert [] + [CmdStartHashing(4)] == [CmdStartHashing(4)];
    assert [ZERO, NOTHING][0 := FIRST] == [FIRST, NOTHING];
    var s2 := OVERTAKEN.(toServer := [CmdStartHashing(4)], owed := true);
    states, steps := Go(c, states, steps, s2, SendCompleted);
    assert Do(c, s2, SendCompleted) == OVERTAKEN;
  }

  /** The server after both: it writes, to the replica that the scan was to mend. */
  const ASTRAY := Core(Writing, [0, 0], [], [], false, 4, 4, NoGoal, Skip([0, 0], 4))

  /** The block that differs is sent and dropped. */
  lemma BlockDropped(c: Config) returns (states: seq<System>, steps: seq<Step>, i: nat)
    requires c == Small(c.caps)
    ensures Ends(c, states, steps, OVERTAKEN.(toServer := [], core := ASTRAY, toClient := [PassCompleted]))
    ensures i < |states| && states[i] == IN_STEP
  {
    hide IsRun;
    states, steps, i := Overtaking(c);
    states, steps := CommandDelivered(c, states, steps, OVERTAKEN);
    var core := IN_STEP.core.(mode := Hashing, from := 4);
    var s1 := OVERTAKEN.(toServer := [HashingCompleted(true)], core := core, pass := Pass({BLOCK}), toClient := [PassStarted]);
    assert OVERTAKEN.toServer[1..] == [HashingCompleted(true)];
    states, steps := Go(c, states, steps, s1, DeliverPacket);
    var s2 := s1.(toServer := [], core := ASTRAY);
    assert Do(c, s1, DeliverPacket) == s2;
    states, steps := BlockCompared(c, states, steps, s2);
    var s3 := OVERTAKEN.(toServer := [CorrectBlock(Write(0, [1, 0]))], core := ASTRAY, toClient := [PassCompleted]);
    assert [] + [CorrectBlock(Write(0, [1, 0]))] == s3.toServer;
    states, steps := Go(c, states, steps, s3, DeliverPacket);
    assert Do(c, s3, DeliverPacket) == OVERTAKEN.(toServer := [], core := ASTRAY, toClient := [PassCompleted]);
  }

  /** The one write made since is forwarded, and the monitor resumed. */
  lemma WriteForwarded(c: Config) returns (states: seq<System>, steps: seq<Step>, i: nat)
    requires c == Small(c.caps)
    ensures Ends(c, states, steps,
                 OVERTAKEN.(history := OVERTAKEN.history + [SECOND], ring := R.Ring([SECOND, NOTHING], 1, 0, 0, false),
                            readPos := 5, info := R.Info(0, 1, false), next := 1, phase := Live, owed := true,
                            toServer := [BufferWrite(SECOND)], core := ASTRAY))
    ensures i < |states| && states[i] == IN_STEP
  {
    hide IsRun;
    states, steps, i := BlockDropped(c);
    var s := OVERTAKEN.(toServer := [], core := ASTRAY, toClient := [PassCompleted]);
    states, steps := Go(c, states, steps, s, SourceWrite(SECOND));
    var s1 := s.(history := s.history + [SECOND], ring := R.Ring([SECOND, NOTHING], 0, 1, 0, false));
    assert Do(c, s, SourceWrite(SECOND)) == s1;
    states, steps := Go(c, states, steps, s1, ReadBuffer);
    var s2 := s1.(toClient := [], phase := Draining, ring := R.Ring([SECOND, NOTHING], 1, 0, 0, false),
                  info := R.Info(0, 1, false), readPos := 5);
    assert Do(c, s1, ReadBuffer) == s2;
    states, steps := Go(c, states, steps, s2, SendWrite);
    var s3 := s2.(toServer := [BufferWrite(SECOND)], next := 1);
    assert Do(c, s2, SendWrite) == s3;
    states, steps := Go(c, states, steps, s3, ResumeMonitor);
  }

  /** The end: everything has been sent, delivered and written, and the first write is missing. */
  const ASTRAY_END := OVERTAKEN.(history := OVERTAKEN.history + [SECOND], landed := 5, source := [1, 1],
                                 ring := R.Ring([SECOND, NOTHING], 1, 0, 0, false), readPos := 5,
                                 info := R.Info(0, 1, false), next := 1, phase := Live, owed := false, toServer := [],
                                 core := ASTRAY.(replica := [0, 1], pos := 5))

  lemma LastWriteDelivered(c: Config) returns (states: seq<System>, steps: seq<Step>, i: nat)
    requires c == Small(c.caps)
    ensures Ends(c, states, steps, ASTRAY_END.(landed := 4, source := [1, 0], toServer := [HashingCompleted(false)]))
    ensures i < |states| && states[i] == IN_STEP
  {
    hide IsRun;
    states, steps, i := WriteForwarded(c);
    var end := ASTRAY_END.(landed := 4, source := [1, 0]);
    var s := end.(owed := true, toServer := [BufferWrite(SECOND)], core := ASTRAY);
    states, steps := Go(c, states, steps, s, SendCompleted);
    var s1 := s.(owed := false, toServer := [BufferWrite(SECOND), HashingCompleted(false)]);
    assert Do(c, s, SendCompleted) == s1;
    states, steps := Go(c, states, steps, s1, DeliverPacket);
    assert WriteAt([0, 0], SECOND) == [0, 1];
    assert Do(c, s1, DeliverPacket) == end.(toServer := [HashingCompleted(false)]);
  }

  lemma AllDelivered(c: Config) returns (states: seq<System>, steps: seq<Step>, i: nat)
    requires c == Small(c.caps)
    ensures Ends(c, states, steps, ASTRAY_END)
    ensures i < |states| && states[i] == IN_STEP
  {
    hide IsRun;
    states, steps, i := LastWriteDelivered(c);
    var end := ASTRAY_END.(landed := 4, source := [1, 0]);
    var s := end.(toServer := [HashingCompleted(false)]);
    states, steps := Go(c, states, steps, s, DeliverPacket);
    assert Do(c, s, DeliverPacket) == end;
    states, steps := Go(c, states, steps, end, WriteLands);
    assert WriteAt([1, 0], SECOND) == [1, 1];
  }

  lemma NeverSource(history: seq<Write>, k: nat)
    requires history == [ZERO, ZERO, FIRST, FIRST, SECOND] && k <= 5
    ensures At(history, [0, 0], k) != [0, 1]
  {
    var base: Image := [0, 0];
    assert history[..0] == [] && At(history, base, 0) == base;
    AtNext(history, base, 0);
    AtNext(history, base, 1);
    assert WriteAt(base, ZERO) == base && At(history, base, 2) == base;
    AtNext(history, base, 2);
    AtNext(history, base, 3);
    assert WriteAt(base, FIRST) == [1, 0] == WriteAt([1, 0], FIRST) && At(history, base, 4) == [1, 0];
    AtNext(history, base, 4);
    assert WriteAt([1, 0], SECOND) == [1, 1];
  }

  /** Why scans have to wait: a run in which the replica is in step, the journal never overflows, and
      yet, with everything delivered, the replica is an image that the source never was. */
  lemma OvertakingIsNoPrefix() returns (c: Config, states: seq<System>, steps: seq<Step>, i: nat, j: nat)
    ensures IsRun(c, states, steps) && i <= j == |steps|
    ensures states[i].core.synced && !ScansWait(states, steps, j)
    ensures forall k: nat :: k <= j ==> states[k].core.mode != JournalOverflow
    ensures states[j].phase == Live && !states[j].owed && states[j].toServer == [] && Quiet(states[j])
    ensures forall k: nat :: k <= |states[j].history| ==> states[j].core.replica != At(states[j].history, c.base, k)
  {
    c := Small(Caps(1, 5));
    states, steps, i := AllDelivered(c);
    j := |steps|;
    forall k: nat | k <= |states[j].history| ensures states[j].core.replica != At(states[j].history, c.base, k) {
      NeverSource(states[j].history, k);
    }
    OneBlock(c.caps);
    forall k: nat | k <= j ensures states[k].core.mode != JournalOverflow {
      forall h: nat | h < k ensures |states[h].history| <= 5 {
        HistoryExtends(c, states, steps, h, j);
      }
      NoJournalOverflow(c, states, steps, k);
    }
    if ScansWait(states, steps, j) {
      PrefixIfScansWait(c, states, steps, i, j);
    }
  }

  // --- the journal overflows --------------------------------------------------------------------------

  const BOTH := Write(0, [1, 1])

  const MIXED := CorrectBlock(Write(0, [0, 1]))

  const RESCAN := IN_STEP.(history := [ZERO, ZERO], landed := 2, ring := R.Ring([ZERO, NOTHING], 0, 0, 0, false), start := 2,
                           readPos := 2, phase := Scanning, core := IN_STEP.core.(mode := Hashing, from := 2))

  /** The block is read while both its bytes are being written: one byte before, one after. */
  lemma MixedRead(c: Config) returns (states: seq<System>, steps: seq<Step>, i: nat)
    requires c == Small(c.caps)
    ensures Ends(c, states, steps,
                 RESCAN.(history := [ZERO, ZERO, BOTH], landed := 3, source := [1, 1], ring := R.Ring([BOTH, NOTHING], 0, 1, 0, false),
                         toClient := [PassCompleted], toServer := [MIXED]))
    ensures i < |states| && states[i] == IN_STEP
  {
    hide IsRun;
    states, steps, i := SecondScan(c);
    var s := RESCAN.(core := IN_STEP.core, toServer := [CmdStartHashing(2)]);
    states, steps := CommandDelivered(c, states, steps, s);
    var s1 := RESCAN.(pass := Pass({BLOCK}), toClient := [PassStarted]);
    assert s.toServer[1..] == [];
    states, steps := HashReceived(c, states, steps, s1);
    assert Hash([0, 0]) == 0 && Hash([0, 1]) == 256;
    var s2 := RESCAN.(toClient := [PassCompleted], work := map[BLOCK := Item(0, map[])]);
    states, steps := ReadOne(c, states, steps, s2, 0);
    var s3 := s2.(work := map[BLOCK := Item(0, map[0 := 0])]);
    states, steps := Go(c, states, steps, s3, SourceWrite(BOTH));
    var s4 := s3.(history := [ZERO, ZERO, BOTH], ring := R.Ring([BOTH, NOTHING], 0, 1, 0, false));
    assert Do(c, s3, SourceWrite(BOTH)) == s4;
    states, steps := Go(c, states, steps, s4, WriteLands);
    var s5 := s4.(landed := 3, source := [1, 1]);
    assert WriteAt([0, 0], BOTH) == [1, 1];
    assert Do(c, s4, WriteLands) == s5;
    states, steps := ReadOne(c, states, steps, s5, 1);
    var s6 := s5.(work := map[BLOCK := Item(0, map[0 := 0, 1 := 1])]);
    states, steps := Compared(c, states, steps, s6, [0, 1]);
    assert s6.(work := map[]).toServer + [MIXED] == [MIXED];
  }

  /** The write that would mend the block is sent after it, and then the completion packet. */
  lemma MixedSent(c: Config) returns (states: seq<System>, steps: seq<Step>, i: nat)
    requires c == Small(c.caps)
    ensures Ends(c, states, steps,
                 RESCAN.(history := [ZERO, ZERO, BOTH], landed := 3, source := [1, 1], ring := R.Ring([BOTH, NOTHING], 1, 0, 0, false),
                         readPos := 3, info := R.Info(0, 1, false), next := 1, phase := Live,
                         toServer := [MIXED, BufferWrite(BOTH), HashingCompleted(false)]))
    ensures i < |states| && states[i] == IN_STEP
  {
    hide IsRun;
    states, steps, i := MixedRead(c);
    var s := RESCAN.(history := [ZERO, ZERO, BOTH], landed := 3, source := [1, 1], ring := R.Ring([BOTH, NOTHING], 0, 1, 0, false),
                     toClient := [PassCompleted], toServer := [MIXED]);
    states, steps := Go(c, states, steps, s, ReadBuffer);
    var s1 := s.(toClient := [], phase := Draining, ring := R.Ring([BOTH, NOTHING], 1, 0, 0, false),
                 info := R.Info(0, 1, false), readPos := 3);
    assert Do(c, s, ReadBuffer) == s1;
    states, steps := Go(c, states, steps, s1, SendWrite);
    var s2 := s1.(toServer := [MIXED, BufferWrite(BOTH)], next := 1);
    assert Do(c, s1, SendWrite) == s2;
    states, steps := Go(c, states, steps, s2, ResumeMonitor);
    var s3 := s2.(phase := Live, owed := true);
    states, steps := Go(c, states, steps, s3, SendCompleted);
    assert Do(c, s3, SendCompleted) == s3.(owed := false, toServer := [MIXED, BufferWrite(BOTH), HashingCompleted(false)]);
  }

  /** Just before the journal is replayed. */
  const OVERFLOWN := RESCAN.(history := [ZERO, ZERO, BOTH], landed := 3, source := [1, 1],
                             ring := R.Ring([BOTH, NOTHING], 1, 0, 0, false), readPos := 3, info := R.Info(0, 1, false),
                             next := 1, phase := Live, toServer := [HashingCompleted(false)], overflowNotice := true,
                             core := RESCAN.core.(mode := JournalOverflow, blocks := [MIXED.w]))

  /** There is no room for the write in the journal. */
  lemma WriteLost(c: Config) returns (states: seq<System>, steps: seq<Step>, i: nat)
    requires c == Small(Caps(1, 0))
    ensures Ends(c, states, steps, OVERFLOWN)
    ensures i < |states| && states[i] == IN_STEP
  {
    hide IsRun;
    states, steps, i := MixedSent(c);
    var core := RESCAN.core.(blocks := [MIXED.w]);
    var s := OVERFLOWN.(toServer := [MIXED, BufferWrite(BOTH), HashingCompleted(false)], core := RESCAN.core,
                        overflowNotice := false);
    states, steps := Go(c, states, steps, s, DeliverPacket);
    var s1 := s.(toServer := [BufferWrite(BOTH), HashingCompleted(false)], core := core);
    assert Do(c, s, DeliverPacket) == s1;
    states, steps := Go(c, states, steps, s1, DeliverPacket);
    assert Do(c, s1, DeliverPacket) == OVERFLOWN;
  }

  lemma HalfReplayed()
    ensures Replay(OVERFLOWN.core) == [0, 1]
  {
    assert [MIXED.w][..0] == [] && WriteAt([0, 0], MIXED.w) == [0, 1];
    assert Apply([MIXED.w], [0, 0]) == [0, 1];
  }

  lemma NeverHalf(history: seq<Write>, k: nat)
    requires history == [ZERO, ZERO, BOTH] && k <= 3
    ensures At(history, [0, 0], k) != [0, 1]
  {
    var base: Image := [0, 0];
    assert history[..0] == [] && At(history, base, 0) == base;
    AtNext(history, base, 0);
    AtNext(history, base, 1);
    assert WriteAt(base, ZERO) == base && At(history, base, 2) == base;
    AtNext(history, base, 2);
    assert WriteAt(base, BOTH) == [1, 1];
  }

  /** With no room for writes in the journal, half of a write reaches the replica: a run in which the
      replica, once in step, becomes an image that the source never was. */
  lemma OverflownReplayIsNoPrefix() returns (c: Config, states: seq<System>, steps: seq<Step>, i: nat, j: nat)
    ensures IsRun(c, states, steps) && i < j == |steps| && states[i].core.synced
    ensures OverflownReplay(states, steps, j - 1)
    ensures forall k: nat :: k <= |states[j].history| ==> states[j].core.replica != At(states[j].history, c.base, k)
  {
    hide IsRun, Replay;
    c := Small(Caps(1, 0));
    var before, taken;
    before, taken, i := WriteLost(c);
    states, steps := Go(c, before, taken, OVERFLOWN, DeliverPacket);
    j := |steps|;
    HalfReplayed();
    forall k: nat | k <= |states[j].history| ensures states[j].core.replica != At(states[j].history, c.base, k) {
      NeverHalf(states[j].history, k);
    }
  }

  // --- a full replication -----------------------------------------------------------------------------

  const COPYING := BEFORE.(phase := Copying, toServer := [StartReplication])

  /** One byte of the block is read, and then both are written. */
  lemma HalfCopied(c: Config) returns (states: seq<System>, steps: seq<Step>)
    requires c == Small(c.caps)
    ensures Ends(c, states, steps,
                 COPYING.(history := [BOTH], ring := R.Ring([BOTH, NOTHING], 0, 1, 0, false),
                          work := map[BLOCK := Item(0, map[0 := 0])]))
  {
    hide IsRun;
    states, steps := Begins(c);
    OneBlock(c.caps);
    states, steps := Go(c, states, steps, BEFORE, StartWithReplication);
    var s1 := COPYING.(work := map[BLOCK := Item(0, map[])]);
    assert NewItems({BLOCK}) == map[BLOCK := Item(0, map[])];
    assert Do(c, BEFORE, StartWithReplication) == s1;
    states, steps := ReadOne(c, states, steps, s1, 0);
    var s2 := COPYING.(work := map[BLOCK := Item(0, map[0 := 0])]);
    states, steps := Go(c, states, steps, s2, SourceWrite(BOTH));
  }

  const COPIED := COPYING.(history := [BOTH], landed := 1, source := [1, 1], ring := R.Ring([BOTH, NOTHING], 0, 1, 0, false),
                           toServer := [StartReplication, ReplicationBlock(Write(0, [0, 1]))])

  /** The other byte is read after the write. */
  lemma MixedCopy(c: Config) returns (states: seq<System>, steps: seq<Step>)
    requires c == Small(c.caps)
    ensures Ends(c, states, steps, COPIED)
  {
    hide IsRun;
    states, steps := HalfCopied(c);
    var s := COPYING.(history := [BOTH], ring := R.Ring([BOTH, NOTHING], 0, 1, 0, false),
                      work := map[BLOCK := Item(0, map[0 := 0])]);
    states, steps := Go(c, states, steps, s, WriteLands);
    var s1 := s.(landed := 1, source := [1, 1]);
    assert WriteAt([0, 0], BOTH) == [1, 1];
    assert Do(c, s, WriteLands) == s1;
    states, steps := ReadOne(c, states, steps, s1, 1);
    var s2 := s1.(work := map[BLOCK := Item(0, map[0 := 0, 1 := 1])]);
    BlockCopied(c, s2);
    states, steps := Go(c, states, steps, s2, SendReplicationBlock(BLOCK));
  }

  lemma BlockCopied(c: Config, s: System)
    requires c.blockSize > 0 && s.phase == Copying && s.work == map[BLOCK := Item(0, map[0 := 0, 1 := 1])]
    ensures Enabled(c, s, SendReplicationBlock(BLOCK))
    ensures Do(c, s, SendReplicationBlock(BLOCK)) == Send(s.(work := map[]), ReplicationBlock(Write(0, [0, 1])))
  {
    assert Complete(BLOCK, s.work[BLOCK]) && Buffer(BLOCK, s.work[BLOCK]) == [0, 1];
    assert s.work - {BLOCK} == map[];
  }

  const CATCHING_UP := COPIED.(phase := CatchingUp(1), toServer := [],
                               core := Core(Writing, [0, 1], [], [], false, 0, 0, Goal(1), NoSkip))

  lemma CopyReceived(c: Config) returns (states: seq<System>, steps: seq<Step>)
    requires c == Small(c.caps)
    ensures Ends(c, states, steps,
                 CATCHING_UP.(toServer := [ReplicationBlock(Write(0, [0, 1])), ReplicationCompleted(0, 1)],
                              core := BEFORE.core.(mode := Replicating)))
  {
    hide IsRun;
    states, steps := MixedCopy(c);
    var block := ReplicationBlock(Write(0, [0, 1]));
    states, steps := Go(c, states, steps, COPIED, FinishReplication);
    var s1 := COPIED.(phase := CatchingUp(1), toServer := [StartReplication, block, ReplicationCompleted(0, 1)]);
    assert Do(c, COPIED, FinishReplication) == s1;
    states, steps := Go(c, states, steps, s1, DeliverPacket);
  }

  /** The copy is made and delivered; the write is still in the ring. */
  lemma CopyDelivered(c: Config) returns (states: seq<System>, steps: seq<Step>)
    requires c == Small(c.caps)
    ensures Ends(c, states, steps, CATCHING_UP)
  {
    hide IsRun;
    states, steps := CopyReceived(c);
    var core := BEFORE.core.(mode := Replicating);
    var s := CATCHING_UP.(toServer := [ReplicationBlock(Write(0, [0, 1])), ReplicationCompleted(0, 1)], core := core);
    states, steps := Go(c, states, steps, s, DeliverPacket);
    var s1 := s.(toServer := [ReplicationCompleted(0, 1)], core := core.(replica := [0, 1]));
    assert WriteAt([0, 0], Write(0, [0, 1])) == [0, 1];
    assert Do(c, s, DeliverPacket) == s1;
    states, steps := Go(c, states, steps, s1, DeliverPacket);
  }

  const COPY_END := CATCHING_UP.(ring := R.Ring([BOTH, NOTHING], 1, 0, 0, false), info := R.Info(0, 1, false), readPos := 1,
                                 next := 1, core := Core(Writing, [1, 1], [], [], true, 1, 0, Goal(1), NoSkip))

  lemma CopyCompleted(c: Config) returns (states: seq<System>, steps: seq<Step>, i: nat)
    requires c == Small(c.caps)
    ensures Ends(c, states, steps, COPY_END)
    ensures i < |states| && states[i] == CATCHING_UP
  {
    hide IsRun;
    states, steps := CopyDelivered(c);
    i := |steps|;
    states, steps := Go(c, states, steps, CATCHING_UP, MonitorRead);
    var s1 := COPY_END.(next := 0, core := CATCHING_UP.core);
    assert Do(c, CATCHING_UP, MonitorRead) == s1;
    states, steps := Go(c, states, steps, s1, SendWrite);
    var s2 := s1.(toServer := [BufferWrite(BOTH)], next := 1);
    assert Do(c, s1, SendWrite) == s2;
    states, steps := Go(c, states, steps, s2, DeliverPacket);
    assert WriteAt([0, 1], BOTH) == [1, 1];
  }

  /** A full replication with a write made during the copy: the copy is an image that the source never
      was, and the batch that follows makes it the source. */
  lemma ReplicationRun() returns (c: Config, states: seq<System>, steps: seq<Step>, i: nat, j: nat)
    ensures IsRun(c, states, steps) && i <= j == |steps|
    ensures states[i].phase.CatchingUp? && !states[i].core.synced
    ensures forall k: nat :: k <= |states[i].history| ==> states[i].core.replica != At(states[i].history, c.base, k)
    ensures states[j].phase.CatchingUp? && states[j].core.synced && states[j].history != []
    ensures states[j].core.replica == states[j].source
  {
    hide IsRun;
    c := Small(Caps(1, 1));
    states, steps, i := CopyCompleted(c);
    j := |steps|;
    assert [BOTH][..0] == [] && At([BOTH], [0, 0], 0) == [0, 0];
    AtNext([BOTH], [0, 0], 0);
    assert WriteAt([0, 0], BOTH) == [1, 1];
  }
}
