/** Replaying the journal with crashes. Both devices are behind a write-back cache: the cache is what the
    server sees, the stable image what would survive, and any byte of a cache can reach its device
    at any time, so that writes are torn and reordered between syncs, header writes included.
    Recovery may crash as often as it likes. */
module Recovery {
  import opened Images
  import opened Codec
  import opened JournalDisk

  /** What the server keeps in memory about an open journal. */
  datatype Mem = Mem(header: Header, blocks: nat, writes: nat)

  datatype Pc =
    | Scanned                            // the scan is complete, its journal not yet validated
    | Validating                         // the header with the flag is written, not yet synced
    | Copying(k: nat, synced: bool)      // `k` entries copied; `synced`: nothing written since the last sync
    | Invalidating                       // the header without the flag is written, not yet synced
    | Done                               // the journal has been copied and invalidated
    | Down                               // crashed
    | Skipped                            // restarted without finding a valid journal

  /** The journal device and the replica, each stable and cached. */
  datatype Node = Node(jstable: Image, jcache: Image, stable: Image, cache: Image, pc: Pc, mem: Mem)

  datatype Step =
    | Validate
    | CopyNext
    | Sync
    | Invalidate
    | SyncJournal
    | Writeback(i: nat)
    | JournalWriteback(i: nat)
    | Crash
    | Restart

  /** Entry `k` of the replay: the correct blocks come first. */
  function ReplayEntry(d: Image, m: Mem, k: nat): Write {
    if k < m.blocks then SlotWrite(d, BlockSection(m.header), k)
    else SlotWrite(d, WriteSection(m.header), k - m.blocks)
  }

  function PutHeader(d: Image, h: Header): Image {
    WriteAt(d, Write(0, EncodeHeader(h)))
  }

  predicate Enabled(n: Node, step: Step) {
    match step
    case Validate => n.pc.Scanned?
    case CopyNext =>
      && n.pc.Copying? && n.pc.k < n.mem.blocks + n.mem.writes
      && (n.pc.k >= n.mem.blocks ==> n.pc.synced)
    case Sync => n.pc.Copying? && n.pc.k >= n.mem.blocks
    case Invalidate => n.pc == Copying(n.mem.blocks + n.mem.writes, true)
    case SyncJournal => n.pc.Validating? || n.pc.Invalidating?
    case Writeback(i) => i < |n.stable| && i < |n.cache|
    case JournalWriteback(i) => i < |n.jstable| && i < |n.jcache|
    case Crash => true
    case Restart => n.pc.Down?
  }

  function Do(n: Node, step: Step): Node
    requires Enabled(n, step)
  {
    match step
    case Validate =>
      var h := SetValid(n.mem.header);
      n.(jcache := PutHeader(n.jcache, h), mem := n.mem.(header := h), pc := Validating)
    case CopyNext =>
      n.(cache := WriteAt(n.cache, ReplayEntry(n.jcache, n.mem, n.pc.k)), pc := Copying(n.pc.k + 1, false))
    case Sync => n.(stable := n.cache, pc := Copying(n.pc.k, true))
    case Invalidate =>
      var h := SetInvalid(n.mem.header);
      n.(jcache := PutHeader(n.jcache, h), mem := n.mem.(header := h), pc := Invalidating)
    case SyncJournal => n.(jstable := n.jcache, pc := if n.pc.Validating? then Copying(0, false) else Done)
    case Writeback(i) => n.(stable := n.stable[i := n.cache[i]])
    case JournalWriteback(i) => n.(jstable := n.jstable[i := n.jcache[i]])
    case Crash => n.(jcache := n.jstable, cache := n.stable, pc := Down)
    case Restart =>
      match Open(n.jcache)
      case Journal(h, w, b) => if IsValid(h) then n.(mem := Mem(h, b, w), pc := Copying(0, false)) else n.(pc := Skipped)
      case OpenFailed => n.(pc := Skipped)
  }

  function Restarted(n: Node): Node {
    Do(Do(n, Crash), Restart)
  }

  // --- the journal of a completed scan -----------------------------------------------------------

  /** A journal that a scan has filled, and the replica it is to be copied to. */
  datatype Scan = Scan(header: Header, writes: seq<Entry>, blocks: seq<Entry>, before: Image)

  predicate AllNonEmpty(es: seq<Entry>) {
    forall i :: 0 <= i < |es| ==> es[i].size != 0 && |es[i].data| == es[i].size
  }

  /** Not yet validated, with a free slot left in each section. */
  predicate Replayable(x: Scan) {
    && !IsValid(x.header)
    && AllNonEmpty(x.writes) && AllNonEmpty(x.blocks)
    && |x.writes| < x.header.writeCount && |x.blocks| < x.header.blockCount
  }

  function Log(x: Scan): (log: seq<Write>)
    requires AllNonEmpty(x.writes) && AllNonEmpty(x.blocks)
    ensures |log| == |x.blocks| + |x.writes|
  {
    Writes(x.blocks) + Writes(x.writes)
  }

  /** The replica after an undisturbed replay. */
  function After(x: Scan): (d: Image)
    requires AllNonEmpty(x.writes) && AllNonEmpty(x.blocks)
    ensures |d| == |x.before|
  {
    Replayed(Writes(x.blocks), Writes(x.writes), x.before)
  }

  predicate OnDisk(x: Scan, jdisk: Image, h: Header) {
    HoldsJournal(jdisk, h, x.writes, x.blocks)
  }

  lemma LogEntry(x: Scan, jdisk: Image, h: Header, k: nat)
    requires AllNonEmpty(x.writes) && AllNonEmpty(x.blocks) && OnDisk(x, jdisk, h) && k < |Log(x)|
    ensures ReplayEntry(jdisk, Mem(h, |x.blocks|, |x.writes|), k) == Log(x)[k]
  {
    if k < |x.blocks| {
      LogReplays(jdisk, BlockSection(h), x.blocks);
      assert SlotLog(jdisk, BlockSection(h), |x.blocks|)[k] == Writes(x.blocks)[k];
    } else {
      LogReplays(jdisk, WriteSection(h), x.writes);
      assert SlotLog(jdisk, WriteSection(h), |x.writes|)[k - |x.blocks|] == Writes(x.writes)[k - |x.blocks|];
    }
  }

  // --- headers ------------------------------------------------------------------------------------

  predicate HasHeader(d: Image, h: Header) {
    |d| >= HEADER_SIZE && d[..HEADER_SIZE] == EncodeHeader(h)
  }

  /** The two images of the journal device differ at most in the header. */
  predicate SameLogs(d: Image, e: Image) {
    |d| == |e| >= HEADER_SIZE && d[HEADER_SIZE..] == e[HEADER_SIZE..]
  }

  ghost predicate FlagOnDisk(jdisk: Image) {
    |jdisk| >= HEADER_SIZE && IsValid(DecodeHeader(jdisk[..HEADER_SIZE]))
  }

  lemma FlagsCancel(h: Header)
    requires !IsValid(h)
    ensures SetInvalid(SetValid(h)) == h == SetInvalid(h) && SetValid(SetValid(h)) == SetValid(h) && IsValid(SetValid(h))
  {
  }

  lemma FlagIs(jdisk: Image, h: Header)
    requires HasHeader(jdisk, h)
    ensures FlagOnDisk(jdisk) <==> IsValid(h)
  {
    HeaderRoundTrip(h);
  }

  lemma OnDiskHeader(x: Scan, jdisk: Image, h: Header)
    requires OnDisk(x, jdisk, h)
    ensures HasHeader(jdisk, h)
  {
  }

  lemma NewHeaderOnDisk(x: Scan, jdisk: Image, h: Header, h': Header)
    requires OnDisk(x, jdisk, h) && h' == h.(flags := h'.flags)
    ensures OnDisk(x, PutHeader(jdisk, h'), h') && HasHeader(PutHeader(jdisk, h'), h')
    ensures SameLogs(jdisk, PutHeader(jdisk, h'))
  {
    HeaderFrame(jdisk, h, h', x.writes, x.blocks);
    var d := PutHeader(jdisk, h');
    assert d[HEADER_SIZE..] == jdisk[HEADER_SIZE..];
  }

  /** A byte of a header write reaches the device: the header there is the old one or the new one. */
  lemma HeaderWriteback(h: Header, valid: bool, d: Image, valid': bool, e: Image, i: nat)
    requires SameLogs(d, e) && i < |d|
    requires HasHeader(d, if valid then SetValid(h) else SetInvalid(h))
    requires HasHeader(e, if valid' then SetValid(h) else SetInvalid(h))
    ensures d[i := e[i]] == d || d[i := e[i]] == e
  {
    var m := d[i := e[i]];
    if i < HEADER_SIZE {
      var torn := m[..HEADER_SIZE];
      forall k | 0 <= k < HEADER_SIZE
        ensures torn[k] == EncodeHeader(SetValid(h))[k] || torn[k] == EncodeHeader(SetInvalid(h))[k]
      {
        assert d[k] == d[..HEADER_SIZE][k] && e[k] == e[..HEADER_SIZE][k];
      }
      TornHeader(h, torn);
      assert m == torn + m[HEADER_SIZE..] && m[HEADER_SIZE..] == d[HEADER_SIZE..];
      assert d == d[..HEADER_SIZE] + d[HEADER_SIZE..] && e == e[..HEADER_SIZE] + e[HEADER_SIZE..];
      if valid == valid' {
        assert d == e;
        assert m == d;
      }
    } else {
      assert d[i] == d[HEADER_SIZE..][i - HEADER_SIZE] == e[HEADER_SIZE..][i - HEADER_SIZE];
      assert m == d;
    }
  }

  // --- invariant ---------------------------------------------------------------------------------

  /** The flag has not reached the disk: nothing has happened to the replica. */
  ghost predicate Untouched(x: Scan, n: Node) {
    && HasHeader(n.jstable, x.header)
    && n.stable == n.cache == x.before
    && match n.pc
       case Scanned => n.jcache == n.jstable && OnDisk(x, n.jcache, x.header) && n.mem == Mem(x.header, |x.blocks|, |x.writes|)
       case Validating =>
         && SameLogs(n.jstable, n.jcache) && OnDisk(x, n.jcache, SetValid(x.header))
         && n.mem == Mem(SetValid(x.header), |x.blocks|, |x.writes|)
       case Down => n.jcache == n.jstable
       case Skipped => n.jcache == n.jstable
       case _ => false
  }

  /** The flag is on disk: the replica differs from what it was only where the journal will write
      again, and the entries still to be copied will complete it. */
  ghost predicate Replaying(x: Scan, n: Node)
    requires Replayable(x)
  {
    && OnDisk(x, n.jstable, SetValid(x.header))
    && AgreeOutside(Log(x), x.before, n.stable) && AgreeOutside(Log(x), x.before, n.cache)
    && match n.pc
       case Validating =>
         n.jcache == n.jstable && n.cache == x.before && n.mem == Mem(SetValid(x.header), |x.blocks|, |x.writes|)
       case Copying(k, synced) =>
         && n.jcache == n.jstable && n.mem == Mem(SetValid(x.header), |x.blocks|, |x.writes|)
         && k <= |Log(x)| && Apply(Log(x)[k..], n.cache) == After(x)
         && (synced ==> n.stable == n.cache)
       case Invalidating =>
         SameLogs(n.jstable, n.jcache) && OnDisk(x, n.jcache, x.header) && n.stable == n.cache == After(x)
       case Down => n.jcache == n.jstable
       case _ => false
  }

  /** The flag has been cleared: the replay is complete and durable. */
  ghost predicate Complete(x: Scan, n: Node)
    requires Replayable(x)
  {
    && HasHeader(n.jstable, x.header) && n.jcache == n.jstable
    && n.stable == n.cache == After(x)
    && (n.pc.Invalidating? || n.pc.Done? || n.pc.Down? || n.pc.Skipped?)
  }

  ghost predicate Inv(x: Scan, n: Node, validated: bool)
    requires Replayable(x)
  {
    if validated then Replaying(x, n) || Complete(x, n) else Untouched(x, n)
  }

  /** The whole journal, copied over any image that differs only where it writes, completes it. */
  lemma ReplayFromAnyTear(x: Scan, d: Image)
    requires Replayable(x) && AgreeOutside(Log(x), x.before, d)
    ensures Apply(Log(x), d) == After(x)
  {
    Absorb(Log(x), x.before, d);
    ApplyConcat(Writes(x.blocks), Writes(x.writes), x.before);
  }

  lemma WriteAgrees(log: seq<Write>, d: Image, e: Image, k: nat)
    requires k < |log| && AgreeOutside(log, d, e)
    ensures AgreeOutside(log, d, WriteAt(e, log[k]))
  {
  }

  lemma AfterAgrees(x: Scan)
    requires Replayable(x)
    ensures AgreeOutside(Log(x), x.before, After(x))
  {
    ApplyConcat(Writes(x.blocks), Writes(x.writes), x.before);
    ApplyAgrees(Log(x), x.before);
  }

  // --- steps ------------------------------------------------------------------------------------------

  lemma CopyKeeps(x: Scan, n: Node)
    requires Replayable(x) && Replaying(x, n) && Enabled(n, CopyNext)
    ensures Replaying(x, Do(n, CopyNext))
  {
    hide OnDisk, AgreeOutside, After, Log;
    var k, log := n.pc.k, Log(x);
    LogEntry(x, n.jcache, SetValid(x.header), k);
    WriteAgrees(log, x.before, n.cache, k);
    ApplyFirst(log[k..], n.cache);
    assert log[k..][1..] == log[k + 1..];
  }

  lemma Reopens(x: Scan, jdisk: Image, h: Header)
    requires Replayable(x) && OnDisk(x, jdisk, h) && h == x.header.(flags := h.flags)
    ensures Open(jdisk) == Journal(h, |x.writes|, |x.blocks|)
  {
    hide Open, HoldsJournal;
    ReopenRecovers(jdisk, h, x.writes, x.blocks);
  }

  lemma OpensValid(x: Scan, n: Node)
    requires Replayable(x) && OnDisk(x, n.jcache, SetValid(x.header)) && n.pc.Down?
    ensures Do(n, Restart) == n.(mem := Mem(SetValid(x.header), |x.blocks|, |x.writes|), pc := Copying(0, false))
  {
    hide Open, OnDisk;
    FlagsCancel(x.header);
    Reopens(x, n.jcache, SetValid(x.header));
  }

  lemma RestartReplaying(x: Scan, n: Node)
    requires Replayable(x) && Replaying(x, n) && n.pc.Down?
    ensures Replaying(x, Do(n, Restart)) && Do(n, Restart).pc == Copying(0, false)
  {
    hide OnDisk;
    OpensValid(x, n);
    ReplayFromAnyTear(x, n.cache);
    assert Log(x)[0..] == Log(x);
  }

  /** Without the flag a restart skips the journal, whatever its sections hold. */
  lemma RestartSkips(n: Node, h: Header)
    requires HasHeader(n.jcache, h) && !IsValid(h) && n.pc.Down?
    ensures Do(n, Restart) == n.(pc := Skipped)
  {
    HeaderRoundTrip(h);
  }

  lemma ValidateKeeps(x: Scan, n: Node)
    requires Replayable(x) && Untouched(x, n) && n.pc.Scanned?
    ensures Untouched(x, Do(n, Validate))
  {
    hide OnDisk;
    NewHeaderOnDisk(x, n.jcache, x.header, SetValid(x.header));
  }

  /** The journal as written with the flag is on the device. */
  lemma FlagReaches(x: Scan, n: Node, m: Node)
    requires Replayable(x) && Untouched(x, n) && n.pc.Validating?
    requires m == n.(jstable := n.jcache, pc := m.pc) && (m.pc == Validating || m.pc == Copying(0, false))
    ensures Replaying(x, m)
  {
    hide OnDisk;
    ReplayFromAnyTear(x, x.before);
    assert Log(x)[0..] == Log(x);
  }

  lemma CopiedAll(x: Scan, n: Node)
    requires Replayable(x) && Replaying(x, n) && n.pc == Copying(|Log(x)|, true)
    ensures n.stable == n.cache == After(x)
  {
    assert Log(x)[|Log(x)|..] == [];
  }

  lemma InvalidateKeeps(x: Scan, n: Node)
    requires Replayable(x) && Replaying(x, n) && Enabled(n, Invalidate)
    ensures Replaying(x, Do(n, Invalidate))
  {
    hide OnDisk;
    CopiedAll(x, n);
    FlagsCancel(x.header);
    NewHeaderOnDisk(x, n.jcache, SetValid(x.header), x.header);
    AfterAgrees(x);
    assert Do(n, Invalidate).jcache == PutHeader(n.jcache, x.header);
  }

  lemma WritebackUntouched(x: Scan, n: Node, i: nat)
    requires Replayable(x) && Untouched(x, n) && Enabled(n, JournalWriteback(i))
    ensures var m := Do(n, JournalWriteback(i)); Untouched(x, m) || Replaying(x, m)
  {
    hide OnDisk;
    if n.pc.Validating? {
      FlagsCancel(x.header);
      OnDiskHeader(x, n.jcache, SetValid(x.header));
      HeaderWriteback(x.header, false, n.jstable, true, n.jcache, i);
      if n.jstable[i := n.jcache[i]] == n.jcache {
        FlagReaches(x, n, Do(n, JournalWriteback(i)));
      }
    } else {
      assert n.jstable[i := n.jcache[i]] == n.jstable;
    }
  }

  lemma WritebackReplaying(x: Scan, n: Node, i: nat)
    requires Replayable(x) && Replaying(x, n) && Enabled(n, JournalWriteback(i))
    ensures var m := Do(n, JournalWriteback(i)); Replaying(x, m) || Complete(x, m)
  {
    hide OnDisk;
    if n.pc.Invalidating? {
      FlagsCancel(x.header);
      OnDiskHeader(x, n.jstable, SetValid(x.header));
      OnDiskHeader(x, n.jcache, x.header);
      HeaderWriteback(x.header, true, n.jstable, false, n.jcache, i);
    } else {
      assert n.jstable[i := n.jcache[i]] == n.jstable;
    }
  }

  /** From an untouched replica: either it stays untouched, or the flag is on disk. */
  lemma UntouchedStep(x: Scan, n: Node, step: Step)
    requires Replayable(x) && Untouched(x, n) && Enabled(n, step)
    ensures Untouched(x, Do(n, step)) || Replaying(x, Do(n, step))
  {
    hide OnDisk, AgreeOutside, Log, Open;
    match step
    case Validate => ValidateKeeps(x, n);
    case SyncJournal => FlagReaches(x, n, Do(n, SyncJournal));
    case JournalWriteback(i) => WritebackUntouched(x, n, i);
    case Restart => RestartSkips(n, x.header);
    case Writeback(i) => assert n.stable[i := n.cache[i]] == n.stable;
    case Crash =>
  }

  lemma ReplayingStep(x: Scan, n: Node, step: Step)
    requires Replayable(x) && Replaying(x, n) && Enabled(n, step)
    ensures Replaying(x, Do(n, step)) || Complete(x, Do(n, step))
  {
    hide OnDisk;
    match step
    case CopyNext => CopyKeeps(x, n);
    case Invalidate => InvalidateKeeps(x, n);
    case SyncJournal => SyncReplaying(x, n);
    case JournalWriteback(i) => WritebackReplaying(x, n, i);
    case Restart => RestartReplaying(x, n);
    case Writeback(i) =>
      if n.stable == n.cache {
        assert n.stable[i := n.cache[i]] == n.stable;
      }
    case Sync =>
    case Crash =>
  }

  lemma SyncReplaying(x: Scan, n: Node)
    requires Replayable(x) && Replaying(x, n) && Enabled(n, SyncJournal)
    ensures Replaying(x, Do(n, SyncJournal)) || Complete(x, Do(n, SyncJournal))
  {
    hide OnDisk;
    if n.pc.Validating? {
      ReplayFromAnyTear(x, x.before);
      assert Log(x)[0..] == Log(x);
    } else {
      OnDiskHeader(x, n.jcache, x.header);
    }
  }

  lemma CompleteStep(x: Scan, n: Node, step: Step)
    requires Replayable(x) && Complete(x, n) && Enabled(n, step)
    ensures Complete(x, Do(n, step))
  {
    hide OnDisk;
    match step
    case Restart => RestartSkips(n, x.header);
    case Writeback(i) => assert n.stable[i := n.cache[i]] == n.stable;
    case JournalWriteback(i) => assert n.jstable[i := n.jcache[i]] == n.jstable;
    case SyncJournal =>
    case Crash =>
  }

  lemma StepKeeps(x: Scan, n: Node, validated: bool, step: Step)
    requires Replayable(x) && Inv(x, n, validated) && Enabled(n, step)
    ensures var m := Do(n, step); Inv(x, m, validated || FlagOnDisk(m.jstable))
  {
    hide OnDisk;
    if !validated {
      UntouchedStep(x, n, step);
      var m := Do(n, step);
      if Untouched(x, m) {
        FlagIs(m.jstable, x.header);
      } else {
        FlagsCancel(x.header);
        OnDiskHeader(x, m.jstable, SetValid(x.header));
        FlagIs(m.jstable, SetValid(x.header));
      }
    } else if Replaying(x, n) {
      ReplayingStep(x, n, step);
    } else {
      CompleteStep(x, n, step);
    }
  }

  // --- runs ---------------------------------------------------------------------------------------------

  ghost predicate Path(states: seq<Node>, steps: seq<Step>) {
    && |states| == |steps| + 1
    && forall i :: 0 <= i < |steps| ==> Enabled(states[i], steps[i]) && states[i + 1] == Do(states[i], steps[i])
  }

  /** A completed scan: its journal is in the cache, and the header, which was synced when the journal
      was reset, on the device. Nothing is said about the slots on the device. */
  ghost predicate Starts(x: Scan, n: Node) {
    && OnDisk(x, n.jcache, x.header) && HasHeader(n.jstable, x.header) && |n.jstable| == |n.jcache|
    && n.stable == n.cache == x.before && n.pc == Scanned && n.mem == Mem(x.header, |x.blocks|, |x.writes|)
  }

  ghost predicate IsRun(x: Scan, states: seq<Node>, steps: seq<Step>) {
    |states| == |steps| + 1 && Path(states, steps) && Starts(x, states[0])
  }

  /** The slots on the device are those in the cache, as they are from the first append on. */
  predicate Durable(n: Node) {
    n.jstable == n.jcache
  }

  /** The valid flag has been on the journal device at some time up to state `i`. */
  ghost predicate Validated(states: seq<Node>, i: nat)
    requires i < |states|
  {
    exists j :: 0 <= j <= i && FlagOnDisk(states[j].jstable)
  }

  lemma ValidatedStep(states: seq<Node>, i: nat)
    requires 0 < i < |states|
    ensures Validated(states, i) == (Validated(states, i - 1) || FlagOnDisk(states[i].jstable))
  {
  }

  lemma PathStep(states: seq<Node>, steps: seq<Step>, i: nat)
    requires Path(states, steps) && i < |steps|
    ensures |states| == |steps| + 1 && Enabled(states[i], steps[i]) && states[i + 1] == Do(states[i], steps[i])
  {
  }

  lemma StartHolds(x: Scan, states: seq<Node>)
    requires Replayable(x) && states != [] && Starts(x, states[0]) && Durable(states[0])
    ensures Inv(x, states[0], Validated(states, 0))
  {
    hide OnDisk;
    FlagIs(states[0].jstable, x.header);
  }

  lemma {:induction false} RunKeepsInv(x: Scan, states: seq<Node>, steps: seq<Step>, i: nat)
    requires Replayable(x) && IsRun(x, states, steps) && Durable(states[0]) && i < |states|
    ensures Inv(x, states[i], Validated(states, i))
  {
    hide Inv, Path, Validated, Enabled, Do;
    if i == 0 {
      StartHolds(x, states);
    } else {
      RunKeepsInv(x, states, steps, i - 1);
      PathStep(states, steps, i - 1);
      StepKeeps(x, states[i - 1], Validated(states, i - 1), steps[i - 1]);
      ValidatedStep(states, i);
    }
  }

  lemma Finished(x: Scan, n: Node, validated: bool)
    requires Replayable(x) && Inv(x, n, validated) && (n.pc.Done? || n.pc.Skipped?)
    ensures n.cache == n.stable == if validated then After(x) else x.before
  {
    hide OnDisk, After;
  }

  /** Crash-atomic replay: however often the server crashed, and wherever, once it is done, or up
      again with nothing to recover, the replica is that of an undisturbed replay if the valid flag
      ever reached the disk, and the replica from before the scan if not. */
  lemma CrashAtomic(x: Scan, states: seq<Node>, steps: seq<Step>, i: nat)
    requires Replayable(x) && IsRun(x, states, steps) && Durable(states[0]) && i < |states|
    requires states[i].pc.Done? || states[i].pc.Skipped?
    ensures states[i].cache == states[i].stable == if Validated(states, i) then After(x) else x.before
  {
    hide Inv, Path, Validated;
    RunKeepsInv(x, states, steps, i);
    Finished(x, states[i], Validated(states, i));
  }

  /** A restart that finds the flag always replays, and from the beginning. */
  lemma RestartReplays(x: Scan, states: seq<Node>, steps: seq<Step>, i: nat)
    requires Replayable(x) && IsRun(x, states, steps) && Durable(states[0]) && i < |steps|
    requires steps[i].Restart? && FlagOnDisk(states[i].jstable)
    ensures states[i + 1].pc == Copying(0, false)
  {
    hide OnDisk, Path;
    RunKeepsInv(x, states, steps, i);
    PathStep(states, steps, i);
    if Replaying(x, states[i]) {
      RestartReplaying(x, states[i]);
    } else {
      FlagIs(states[i].jstable, x.header);
    }
  }

  // --- building a run ---------------------------------------------------------------------------------

  /** The path ends in `n`. */
  ghost predicate Ends(states: seq<Node>, steps: seq<Step>, n: Node) {
    |states| == |steps| + 1 && Path(states, steps) && states[|steps|] == n
  }

  lemma Go(states: seq<Node>, steps: seq<Step>, n: Node, step: Step) returns (states': seq<Node>, steps': seq<Step>)
    requires Ends(states, steps, n) && Enabled(n, step)
    ensures Ends(states', steps', Do(n, step)) && states' == states + [Do(n, step)] && steps' == steps + [step]
  {
    hide Enabled, Do;
    states', steps' := states + [Do(n, step)], steps + [step];
    forall i | 0 <= i < |steps'| ensures Enabled(states'[i], steps'[i]) && states'[i + 1] == Do(states'[i], steps'[i]) {
      if i < |steps| {
        assert Enabled(states[i], steps[i]);
      }
    }
  }

  lemma Begin(n: Node) returns (states: seq<Node>, steps: seq<Step>)
    ensures Ends(states, steps, n) && states == [n]
  {
    states, steps := [n], [];
  }

  /** A replay can always be brought to its end. */
  lemma Finish(x: Scan, states: seq<Node>, steps: seq<Step>, n: Node) returns (states': seq<Node>, steps': seq<Step>, m: Node)
    requires Replayable(x) && Ends(states, steps, n) && Replaying(x, n) && n.pc.Copying?
    ensures Ends(states', steps', m) && states <= states'
    ensures m.pc == Done && m.cache == m.stable == After(x)
    decreases |Log(x)| - n.pc.k, if n.pc.synced then 0 else 1
  {
    hide Path, OnDisk;
    if n.pc.k < |Log(x)| && (n.pc.k < |x.blocks| || n.pc.synced) {
      CopyKeeps(x, n);
      states', steps' := Go(states, steps, n, CopyNext);
      states', steps', m := Finish(x, states', steps', Do(n, CopyNext));
    } else if !n.pc.synced {
      ReplayingStep(x, n, Sync);
      states', steps' := Go(states, steps, n, Sync);
      states', steps', m := Finish(x, states', steps', Do(n, Sync));
    } else {
      InvalidateKeeps(x, n);
      states', steps' := Go(states, steps, n, Invalidate);
      m := Do(n, Invalidate);
      states', steps' := Go(states', steps', m, SyncJournal);
      m := Do(m, SyncJournal);
    }
  }

  /** The first `k` bytes of the device are those of `t`, a mixture of device and cache. */
  lemma WritebackSome(states: seq<Node>, steps: seq<Step>, n: Node, t: Image, k: nat)
      returns (states': seq<Node>, steps': seq<Step>, m: Node)
    requires Ends(states, steps, n) && Torn(n.stable, n.cache, t) && k <= |t|
    ensures Ends(states', steps', m) && states <= states'
    ensures m == n.(stable := t[..k] + n.stable[k..])
    decreases k
  {
    hide Path;
    if k == 0 {
      states', steps', m := states, steps, n;
      assert t[..0] + n.stable[0..] == n.stable;
    } else {
      states', steps', m := WritebackSome(states, steps, n, t, k - 1);
      if t[k - 1] == n.stable[k - 1] {
        assert t[..k - 1] + n.stable[k - 1..] == t[..k] + n.stable[k..];
      } else {
        states', steps' := Go(states', steps', m, Writeback(k - 1));
        m := Do(m, Writeback(k - 1));
        assert m.stable == t[..k] + n.stable[k..];
      }
    }
  }

  /** What a crash can leave of the replica: after any number of blocks, any mixture of the replica from
      before the scan and of the blocks copied so far, and nothing of the cache. */
  lemma CrashTears(x: Scan, n: Node, k: nat, t: Image) returns (states: seq<Node>, steps: seq<Step>, m: Node)
    requires AllNonEmpty(x.writes) && AllNonEmpty(x.blocks) && Starts(x, n) && Durable(n) && k <= |x.blocks|
    requires Torn(x.before, Apply(Log(x)[..k], x.before), t)
    ensures IsRun(x, states, steps) && states[0] == n && states[|steps|] == m
    ensures m.pc == Down && m.stable == m.cache == t && m.jstable == m.jcache
  {
    hide OnDisk, Path, Apply, Log, AllNonEmpty, Starts;
    states, steps, m := ValidatedRun(x, n);
    states, steps, m := CopySome(x, states, steps, m, k);
    states, steps, m := WritebackSome(states, steps, m, t, |t|);
    assert m.stable == t;
    states, steps := Go(states, steps, m, Crash);
    m := Do(m, Crash);
  }

  // --- clears that were not durable ------------------------------------------------------------------

  /** Writing back the last byte of the header with the flag sets the flag on the device, over whatever
      slots are there. */
  lemma FlagAlone(y: Scan, d: Image, e: Image)
    requires Replayable(y) && OnDisk(y, d, y.header) && |e| == |d| && HasHeader(e, SetValid(y.header))
    ensures OnDisk(y, d[HEADER_SIZE - 1 := e[HEADER_SIZE - 1]], SetValid(y.header))
  {
    hide OnDisk;
    var h, v := y.header, SetValid(y.header);
    var f := PutHeader(d, v);
    FlagsCancel(h);
    OnDiskHeader(y, d, h);
    NewHeaderOnDisk(y, d, h, v);
    var m := d[HEADER_SIZE - 1 := e[HEADER_SIZE - 1]];
    assert e[HEADER_SIZE - 1] == e[..HEADER_SIZE][HEADER_SIZE - 1] == f[..HEADER_SIZE][HEADER_SIZE - 1] == f[HEADER_SIZE - 1];
    HeaderWriteback(h, false, d, true, f, HEADER_SIZE - 1);
    if m == d {
      FlagByteDiffers(h);
    }
  }

  lemma FlagByteDiffers(h: Header)
    requires !IsValid(h)
    ensures EncodeHeader(h)[HEADER_SIZE - 1] != EncodeHeader(SetValid(h))[HEADER_SIZE - 1]
  {
    var a, b := EncodeHeader(h), EncodeHeader(SetValid(h));
    FlagByte(h, SetValid(h));
    if a[HEADER_SIZE - 1] == b[HEADER_SIZE - 1] {
      assert a == a[..63] + [a[63]] && b == b[..63] + [b[63]];
      HeaderRoundTrip(h);
      HeaderRoundTrip(SetValid(h));
    }
  }

  /** The flag reaches the device before the clears do, and the server crashes. */
  lemma FlagOverStale(x: Scan, y: Scan, n: Node) returns (states: seq<Node>, steps: seq<Step>, m: Node)
    requires Replayable(x) && Starts(x, n)
    requires Replayable(y) && y.header == x.header && y.before == x.before && OnDisk(y, n.jstable, y.header)
    ensures Ends(states, steps, m) && states[0] == n && m.pc.Down? && Replaying(y, m) && FlagOnDisk(m.jstable)
  {
    hide OnDisk, Path, Log, AllNonEmpty;
    states, steps := Begin(n);
    NewHeaderOnDisk(x, n.jcache, x.header, SetValid(x.header));
    states, steps := Go(states, steps, n, Validate);
    m := Do(n, Validate);
    FlagAlone(y, n.jstable, m.jcache);
    states, steps := Go(states, steps, m, JournalWriteback(HEADER_SIZE - 1));
    m := Do(m, JournalWriteback(HEADER_SIZE - 1));
    states, steps := Go(states, steps, m, Crash);
    m := Do(m, Crash);
    FlagsCancel(x.header);
    OnDiskHeader(y, m.jstable, SetValid(y.header));
    FlagIs(m.jstable, SetValid(y.header));
  }

  /** Why the clears have to be durable. A scan finds no difference and appends nothing, so that nothing
      has been synced since its journal was cleared, and the device still holds the journal `y` of an
      earlier scan. A crash while the flag is being written can leave the flag over that journal: the
      restart replays it, and the replica ends as `After(y)` although the scan was to change nothing. */
  lemma UnsyncedClears(x: Scan, y: Scan, n: Node) returns (states: seq<Node>, steps: seq<Step>, m: Node)
    requires Replayable(x) && x.writes == [] && x.blocks == [] && Starts(x, n)
    requires Replayable(y) && y.header == x.header && y.before == x.before && OnDisk(y, n.jstable, y.header)
    ensures IsRun(x, states, steps) && states[0] == n && states[|steps|] == m
    ensures Validated(states, |steps|) && m.pc == Done
    ensures m.cache == m.stable == After(y) && After(x) == x.before
  {
    hide OnDisk, Path, Replaying, FlagOnDisk, Open;
    states, steps, m := FlagOverStale(x, y, n);
    ghost var k := |steps|;
    RestartReplaying(y, m);
    states, steps := Go(states, steps, m, Restart);
    states, steps, m := Finish(y, states, steps, Do(m, Restart));
    assert FlagOnDisk(states[k].jstable);
  }

  // --- full sections ------------------------------------------------------------------------------------

  lemma FullSectionFails(x: Scan, jdisk: Image, h: Header)
    requires AllNonEmpty(x.writes) && AllNonEmpty(x.blocks) && OnDisk(x, jdisk, h)
    requires |x.writes| == h.writeCount || |x.blocks| == h.blockCount
    ensures Open(jdisk) == OpenFailed
  {
    ReopenRecovers(jdisk, h, x.writes, x.blocks);
  }

  /** The next entry is copied, after the sync that a write waits for. */
  lemma CopyOne(x: Scan, states: seq<Node>, steps: seq<Step>, n: Node, k: nat)
      returns (states': seq<Node>, steps': seq<Step>, m: Node)
    requires AllNonEmpty(x.writes) && AllNonEmpty(x.blocks) && Ends(states, steps, n) && k < |Log(x)|
    requires OnDisk(x, n.jcache, n.mem.header) && n.mem == Mem(n.mem.header, |x.blocks|, |x.writes|)
    requires n.pc.Copying? && n.pc.k == k && |n.stable| == |n.cache|
    ensures Ends(states', steps', m) && states <= states'
    ensures m == n.(cache := WriteAt(n.cache, Log(x)[k]), stable := m.stable, pc := Copying(k + 1, false))
    ensures |m.stable| == |n.stable| && (k < |x.blocks| ==> m.stable == n.stable)
  {
    hide OnDisk, Ends, Path, WriteAt;
    LogEntry(x, n.jcache, n.mem.header, k);
    if k < |x.blocks| {
      states', steps', m := states, steps, n;
    } else {
      states', steps' := Go(states, steps, n, Sync);
      m := Do(n, Sync);
    }
    states', steps' := Go(states', steps', m, CopyNext);
    m := Do(m, CopyNext);
  }

  /** `k` entries have been copied. */
  lemma CopySome(x: Scan, states: seq<Node>, steps: seq<Step>, n: Node, k: nat)
      returns (states': seq<Node>, steps': seq<Step>, m: Node)
    requires AllNonEmpty(x.writes) && AllNonEmpty(x.blocks) && Ends(states, steps, n) && k <= |Log(x)|
    requires OnDisk(x, n.jcache, n.mem.header) && n.mem == Mem(n.mem.header, |x.blocks|, |x.writes|)
    requires n.pc == Copying(0, false) && n.cache == x.before && |n.stable| == |n.cache|
    ensures Ends(states', steps', m) && states <= states' && m.pc.Copying? && m.pc.k == k
    ensures k <= |x.blocks| ==> m.stable == n.stable
    ensures m == n.(cache := Apply(Log(x)[..k], x.before), stable := m.stable, pc := m.pc) && |m.stable| == |m.cache|
    decreases k
  {
    hide OnDisk, Ends, Path, WriteAt;
    if k == 0 {
      states', steps', m := states, steps, n;
    } else {
      states', steps', m := CopySome(x, states, steps, n, k - 1);
      states', steps', m := CopyOne(x, states', steps', m, k - 1);
      assert Log(x)[..k][..k - 1] == Log(x)[..k - 1];
    }
  }

  /** The journal has been validated and nothing copied yet. */
  lemma ValidatedRun(x: Scan, n: Node) returns (states: seq<Node>, steps: seq<Step>, m: Node)
    requires Starts(x, n) && Durable(n)
    ensures IsRun(x, states, steps) && states[0] == n && states[|steps|] == m
    ensures OnDisk(x, m.jstable, SetValid(x.header))
    ensures m == Node(m.jstable, m.jstable, x.before, x.before, Copying(0, false),
                      Mem(SetValid(x.header), |x.blocks|, |x.writes|))
  {
    hide OnDisk, Path;
    states, steps := Begin(n);
    NewHeaderOnDisk(x, n.jcache, x.header, SetValid(x.header));
    states, steps := Go(states, steps, n, Validate);
    m := Do(n, Validate);
    states, steps := Go(states, steps, m, SyncJournal);
    m := Do(m, SyncJournal);
  }

  lemma SkipsFull(x: Scan, n: Node)
    requires !IsValid(x.header) && AllNonEmpty(x.writes) && AllNonEmpty(x.blocks)
    requires |x.writes| == x.header.writeCount || |x.blocks| == x.header.blockCount
    requires n.pc.Down? && n.jcache == n.jstable && OnDisk(x, n.jcache, SetValid(x.header))
    ensures Do(n, Restart) == n.(pc := Skipped) && FlagOnDisk(n.jstable)
  {
    hide OnDisk;
    FlagsCancel(x.header);
    OnDiskHeader(x, n.jcache, SetValid(x.header));
    FlagIs(n.jcache, SetValid(x.header));
    FullSectionFails(x, n.jcache, SetValid(x.header));
  }

  /** The free slots are needed: if a section is full, a crash after any `k` entries leaves the replica
      with those entries and no others, for good: every restart skips the journal although the
      flag is on disk. */
  lemma FullSectionTears(x: Scan, n: Node, k: nat) returns (states: seq<Node>, steps: seq<Step>, m: Node)
    requires !IsValid(x.header) && AllNonEmpty(x.writes) && AllNonEmpty(x.blocks) && k <= |Log(x)|
    requires |x.writes| == x.header.writeCount || |x.blocks| == x.header.blockCount
    requires Starts(x, n) && Durable(n)
    ensures IsRun(x, states, steps) && states[0] == n && states[|steps|] == m
    ensures m.pc == Skipped && m.cache == m.stable == Apply(Log(x)[..k], x.before) && FlagOnDisk(m.jstable)
    ensures Restarted(m) == m
  {
    hide OnDisk, Path, Apply, Log, AllNonEmpty, FlagOnDisk, Open, Starts;
    states, steps, m := ValidatedRun(x, n);
    states, steps, m := CopySome(x, states, steps, m, k);
    states, steps, m := WritebackSome(states, steps, m, m.cache, |m.cache|);
    assert m.stable == m.cache;
    states, steps := Go(states, steps, m, Crash);
    m := Do(m, Crash);
    SkipsFull(x, m);
    states, steps := Go(states, steps, m, Restart);
    m := Do(m, Restart);
    SkipsFull(x, Do(m, Crash));
  }
}
