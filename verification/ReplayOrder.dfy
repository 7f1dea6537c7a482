/** The order in which a replay touches the devices: the flag on the journal first, every write to the
    replica while it is there, a sync after the blocks and after each write, and the flag
    cleared last. This order is a run of the crash machine without crashes. */
module ReplayOrder {
  import opened Images
  import opened Codec
  import opened JournalDisk
  import opened Recovery

  /** The journal device and the replica: what is durable and what the server sees. */
  datatype Devices = Devices(jstable: Image, jdisk: Image, stable: Image, replica: Image)

  /** The devices after each operation of a copy of `log`, with the journal at `j` throughout. */
  function CopyTrace(j: Image, stable: Image, d: Image, log: seq<Write>, sync: bool): (t: seq<Devices>)
    ensures |t| == if sync then 2 * |log| else |log|
  {
    if log == [] then []
    else
      var front := log[..|log| - 1];
      var before, after := Apply(front, d), Apply(log, d);
      CopyTrace(j, stable, d, front, sync)
        + if sync then [Devices(j, j, if front == [] then stable else before, after), Devices(j, j, after, after)]
          else [Devices(j, j, stable, after)]
  }

  lemma CopyTraceNext(j: Image, stable: Image, d: Image, log: seq<Write>, w: Write, sync: bool)
    ensures var before, after := Apply(log, d), WriteAt(Apply(log, d), w);
            && Apply(log + [w], d) == after
            && CopyTrace(j, stable, d, log + [w], sync)
               == CopyTrace(j, stable, d, log, sync)
                  + if sync then [Devices(j, j, if log == [] then stable else before, after), Devices(j, j, after, after)]
                    else [Devices(j, j, stable, after)]
  {
    assert (log + [w])[..|log|] == log;
  }

  /** The devices after each operation of a replay; `j` is the journal with the flag, `j'` without. */
  function ReplayTrace(j: Image, j': Image, stable: Image, d: Image, blocks: seq<Write>, writes: seq<Write>): seq<Devices> {
    var copied := Apply(blocks, d);
    var done := Apply(writes, copied);
    [Devices(j, j, stable, d)] + CopyTrace(j, stable, d, blocks, false) + [Devices(j, j, copied, copied)]
    + CopyTrace(j, copied, copied, writes, true) + [Devices(j', j', done, done)]
  }

  lemma {:induction false} CopyKeepsJournal(j: Image, stable: Image, d: Image, log: seq<Write>, sync: bool, k: nat)
    requires k < |CopyTrace(j, stable, d, log, sync)|
    ensures CopyTrace(j, stable, d, log, sync)[k].jstable == j
  {
    var front := log[..|log| - 1];
    if k < |CopyTrace(j, stable, d, front, sync)| {
      CopyKeepsJournal(j, stable, d, front, sync, k);
    }
  }

  /** The journal on the device carries the flag from the first operation to the last but one, so that
      every byte of the replica is changed under its protection. */
  lemma FlagThroughout(j: Image, j': Image, stable: Image, d: Image, blocks: seq<Write>, writes: seq<Write>, k: nat)
    requires k < |ReplayTrace(j, j', stable, d, blocks, writes)| - 1
    ensures ReplayTrace(j, j', stable, d, blocks, writes)[k].jstable == j
  {
    var copied := Apply(blocks, d);
    var n := |blocks|;
    if 1 <= k <= n {
      CopyKeepsJournal(j, stable, d, blocks, false, k - 1);
    } else if k > n + 1 {
      CopyKeepsJournal(j, copied, copied, writes, true, k - n - 2);
    }
  }

  // --- as a run of the crash machine ----------------------------------------------------------------

  function DevicesOf(n: Node): Devices {
    Devices(n.jstable, n.jcache, n.stable, n.cache)
  }

  function Shown(states: seq<Node>): (t: seq<Devices>)
    ensures |t| == |states|
  {
    seq(|states|, k requires 0 <= k < |states| => DevicesOf(states[k]))
  }

  predicate Undisturbed(step: Step) {
    step.Validate? || step.CopyNext? || step.Sync? || step.Invalidate? || step.SyncJournal?
  }

  ghost predicate UndisturbedRun(states: seq<Node>, steps: seq<Step>, n: Node) {
    Ends(states, steps, n) && forall k :: 0 <= k < |steps| ==> Undisturbed(steps[k])
  }

  lemma Takes(states: seq<Node>, steps: seq<Step>, n: Node, step: Step) returns (states': seq<Node>, steps': seq<Step>)
    requires UndisturbedRun(states, steps, n) && Enabled(n, step) && Undisturbed(step)
    ensures UndisturbedRun(states', steps', Do(n, step)) && states' == states + [Do(n, step)]
    ensures Shown(states') == Shown(states) + [DevicesOf(Do(n, step))]
  {
    hide Enabled, Do, Path;
    states', steps' := Go(states, steps, n, step);
  }

  /** A node that is copying entry `k` of the journal of `x`. */
  ghost predicate AtEntry(x: Scan, n: Node, k: nat, synced: bool) {
    && OnDisk(x, n.jcache, n.mem.header) && n.jstable == n.jcache
    && n.mem == Mem(n.mem.header, |x.blocks|, |x.writes|) && n.pc == Copying(k, synced)
  }

  lemma CopyStep(x: Scan, n: Node, k: nat, synced: bool)
    requires AllNonEmpty(x.writes) && AllNonEmpty(x.blocks)
    requires AtEntry(x, n, k, synced) && k < |Log(x)| && (k >= |x.blocks| ==> synced)
    ensures Enabled(n, CopyNext)
    ensures Do(n, CopyNext) == n.(cache := WriteAt(n.cache, Log(x)[k]), pc := Copying(k + 1, false))
    ensures AtEntry(x, Do(n, CopyNext), k + 1, false)
  {
    hide OnDisk;
    LogEntry(x, n.jcache, n.mem.header, k);
  }

  lemma SyncStep(x: Scan, n: Node, k: nat, synced: bool)
    requires AtEntry(x, n, k, synced) && k >= |x.blocks|
    ensures Enabled(n, Sync) && Do(n, Sync) == n.(stable := n.cache, pc := Copying(k, true))
    ensures AtEntry(x, Do(n, Sync), k, true)
  {
    hide OnDisk;
  }

  lemma BlockCopied(x: Scan, states: seq<Node>, steps: seq<Step>, n: Node, k: nat)
      returns (states': seq<Node>, steps': seq<Step>)
    requires AllNonEmpty(x.writes) && AllNonEmpty(x.blocks)
    requires UndisturbedRun(states, steps, n) && AtEntry(x, n, k, false) && k < |x.blocks|
    ensures var m := n.(cache := WriteAt(n.cache, Writes(x.blocks)[k]), pc := Copying(k + 1, false));
            && UndisturbedRun(states', steps', m) && AtEntry(x, m, k + 1, false) && states' == states + [m]
            && Shown(states') == Shown(states) + [Devices(n.jcache, n.jcache, n.stable, m.cache)]
  {
    hide UndisturbedRun, OnDisk, Shown, Do, Enabled, WriteAt;
    CopyStep(x, n, k, false);
    assert Log(x)[k] == Writes(x.blocks)[k];
    states', steps' := Takes(states, steps, n, CopyNext);
  }

  /** The first `k` blocks are copied. */
  lemma {:induction false} BlocksCopied(x: Scan, states: seq<Node>, steps: seq<Step>, n: Node, k: nat)
      returns (states': seq<Node>, steps': seq<Step>, m: Node)
    requires AllNonEmpty(x.writes) && AllNonEmpty(x.blocks)
    requires UndisturbedRun(states, steps, n) && AtEntry(x, n, 0, false) && k <= |x.blocks|
    ensures UndisturbedRun(states', steps', m) && states <= states' && AtEntry(x, m, k, false)
    ensures m == n.(cache := Apply(Writes(x.blocks)[..k], n.cache), pc := Copying(k, false))
    ensures Shown(states') == Shown(states) + CopyTrace(n.jcache, n.stable, n.cache, Writes(x.blocks)[..k], false)
    decreases k
  {
    hide UndisturbedRun, OnDisk, Shown, WriteAt, CopyTrace, Apply;
    var log := Writes(x.blocks);
    if k == 0 {
      states', steps', m := states, steps, n;
      NoTrace(n.jcache, n.stable, n.cache, false);
      assert log[..0] == [];
    } else {
      states', steps', m := BlocksCopied(x, states, steps, n, k - 1);
      states', steps' := BlockCopied(x, states', steps', m, k - 1);
      CopyTraceNext(n.jcache, n.stable, n.cache, log[..k - 1], log[k - 1], false);
      assert log[..k - 1] + [log[k - 1]] == log[..k];
      m := m.(cache := WriteAt(m.cache, log[k - 1]), pc := Copying(k, false));
    }
  }

  lemma NoTrace(j: Image, stable: Image, d: Image, sync: bool)
    ensures Apply([], d) == d && CopyTrace(j, stable, d, [], sync) == []
  {
  }

  lemma WriteCopied(x: Scan, states: seq<Node>, steps: seq<Step>, n: Node, k: nat)
      returns (states': seq<Node>, steps': seq<Step>)
    requires AllNonEmpty(x.writes) && AllNonEmpty(x.blocks)
    requires UndisturbedRun(states, steps, n) && AtEntry(x, n, |x.blocks| + k, true) && k < |x.writes|
    ensures var d := WriteAt(n.cache, Writes(x.writes)[k]);
            var m := n.(stable := d, cache := d, pc := Copying(|x.blocks| + k + 1, true));
            && UndisturbedRun(states', steps', m) && AtEntry(x, m, |x.blocks| + k + 1, true) && states <= states'
            && Shown(states') == Shown(states) + [Devices(n.jcache, n.jcache, n.stable, d), Devices(n.jcache, n.jcache, d, d)]
  {
    hide UndisturbedRun, OnDisk, Shown, Do, Enabled, WriteAt;
    var at := |x.blocks| + k;
    CopyStep(x, n, at, true);
    assert Log(x)[at] == Writes(x.writes)[k];
    states', steps' := Takes(states, steps, n, CopyNext);
    var m := Do(n, CopyNext);
    SyncStep(x, m, at + 1, false);
    states', steps' := Takes(states', steps', m, Sync);
  }

  /** The first `k` writes are copied, each with its sync. */
  lemma {:induction false} WritesCopied(x: Scan, states: seq<Node>, steps: seq<Step>, n: Node, k: nat)
      returns (states': seq<Node>, steps': seq<Step>, m: Node)
    requires AllNonEmpty(x.writes) && AllNonEmpty(x.blocks)
    requires UndisturbedRun(states, steps, n) && AtEntry(x, n, |x.blocks|, true) && k <= |x.writes| && n.stable == n.cache
    ensures UndisturbedRun(states', steps', m) && states <= states' && AtEntry(x, m, |x.blocks| + k, true)
    ensures var d := Apply(Writes(x.writes)[..k], n.cache);
            m == n.(stable := d, cache := d, pc := Copying(|x.blocks| + k, true))
    ensures Shown(states') == Shown(states) + CopyTrace(n.jcache, n.stable, n.cache, Writes(x.writes)[..k], true)
    decreases k
  {
    hide UndisturbedRun, OnDisk, Shown, WriteAt, CopyTrace, Apply;
    var log := Writes(x.writes);
    if k == 0 {
      states', steps', m := states, steps, n;
      NoTrace(n.jcache, n.stable, n.cache, true);
      assert log[..0] == [];
    } else {
      states', steps', m := WritesCopied(x, states, steps, n, k - 1);
      states', steps' := WriteCopied(x, states', steps', m, k - 1);
      CopyTraceNext(n.jcache, n.stable, n.cache, log[..k - 1], log[k - 1], true);
      NoTrace(n.jcache, n.stable, n.cache, true);
      assert log[..k - 1] + [log[k - 1]] == log[..k];
      var d := WriteAt(m.cache, log[k - 1]);
      m := m.(stable := d, cache := d, pc := Copying(|x.blocks| + k, true));
    }
  }

  /** The replay of a journal, operation by operation, is a run of the crash machine in which nothing
      crashes: from the end of the scan, past the header that is written but not synced, through the
      devices of the trace to the end, with one unsynced header before the last. */
  lemma ReplayIsRun(x: Scan, n: Node) returns (states: seq<Node>, steps: seq<Step>)
    requires AllNonEmpty(x.writes) && AllNonEmpty(x.blocks) && !IsValid(x.header) && Starts(x, n)
    ensures IsRun(x, states, steps) && states[0] == n && states[|steps|].pc == Done
    ensures forall k :: 0 <= k < |steps| ==> Undisturbed(steps[k])
    ensures var j := PutHeader(n.jcache, SetValid(x.header));
            var trace := ReplayTrace(j, PutHeader(j, x.header), x.before, x.before, Writes(x.blocks), Writes(x.writes));
            && |states| == |trace| + 3
            && Shown(states)[2..|trace| + 1] == trace[..|trace| - 1]
            && Shown(states)[|trace| + 2] == trace[|trace| - 1]
  {
    hide Path, OnDisk, UndisturbedRun, Shown;
    var m;
    states, steps, m := AllCopied(x, n);
    var before, shown := |states|, Shown(states)[2..];
    var all, moves := Unflagged(x, states, steps, m);
    UndisturbedIsRun(x, all, moves, all[before + 1]);
    ShownPrefix(all, before);
    assert all[..before] == states;
    assert Shown(all)[2..before] == Shown(all)[..before][2..] == shown;
    var j := PutHeader(n.jcache, SetValid(x.header));
    var trace := ReplayTrace(j, PutHeader(j, x.header), x.before, x.before, Writes(x.blocks), Writes(x.writes));
    assert trace == shown + [Shown(all)[before + 1]];
    states, steps := all, moves;
  }

  lemma UndisturbedIsRun(x: Scan, states: seq<Node>, steps: seq<Step>, n: Node)
    requires UndisturbedRun(states, steps, n) && Starts(x, states[0])
    ensures IsRun(x, states, steps) && states[|steps|] == n
    ensures forall k :: 0 <= k < |steps| ==> Undisturbed(steps[k])
  {
  }

  lemma ShownPrefix(states: seq<Node>, n: nat)
    requires n + 2 == |states|
    ensures Shown(states)[..n] == Shown(states[..n]) && Shown(states)[n + 1] == DevicesOf(states[n + 1])
  {
  }

  lemma Tail(a: seq<Devices>, t: seq<Devices>)
    requires |a| >= 2
    ensures (a + t)[2..] == a[2..] + t
  {
  }

  /** Everything up to the last sync. */
  lemma AllCopied(x: Scan, n: Node) returns (states: seq<Node>, steps: seq<Step>, m: Node)
    requires AllNonEmpty(x.writes) && AllNonEmpty(x.blocks) && !IsValid(x.header) && Starts(x, n)
    ensures UndisturbedRun(states, steps, m) && states != [] && states[0] == n
    ensures AtEntry(x, m, |x.blocks| + |x.writes|, true) && m.mem.header == SetValid(x.header)
    ensures var j, copied := PutHeader(n.jcache, SetValid(x.header)), Apply(Writes(x.blocks), x.before);
            && m.jcache == j && m.stable == m.cache == Apply(Writes(x.writes), copied)
            && |states| >= 2
            && Shown(states)[2..] == [Devices(j, j, x.before, x.before)] + CopyTrace(j, x.before, x.before, Writes(x.blocks), false)
                                     + [Devices(j, j, copied, copied)] + CopyTrace(j, copied, copied, Writes(x.writes), true)
  {
    hide Path, OnDisk, UndisturbedRun, Shown, CopyTrace, Apply, Do, Enabled;
    states, steps, m := Flagged(x, n);
    var blocks, writes := Writes(x.blocks), Writes(x.writes);
    assert blocks[..|blocks|] == blocks && writes[..|writes|] == writes;
    Tail(Shown(states), CopyTrace(m.jcache, m.stable, m.cache, blocks, false));
    states, steps, m := BlocksCopied(x, states, steps, m, |blocks|);
    SyncStep(x, m, |blocks|, false);
    Tail(Shown(states), [DevicesOf(Do(m, Sync))]);
    states, steps := Takes(states, steps, m, Sync);
    m := Do(m, Sync);
    Tail(Shown(states), CopyTrace(m.jcache, m.stable, m.cache, writes, true));
    states, steps, m := WritesCopied(x, states, steps, m, |writes|);
  }

  lemma Flagged(x: Scan, n: Node) returns (states: seq<Node>, steps: seq<Step>, m: Node)
    requires AllNonEmpty(x.writes) && AllNonEmpty(x.blocks) && !IsValid(x.header) && Starts(x, n)
    ensures UndisturbedRun(states, steps, m) && |states| == 3 && states[0] == n && AtEntry(x, m, 0, false)
    ensures Shown(states)[2..] == [DevicesOf(m)]
    ensures var j := PutHeader(n.jcache, SetValid(x.header));
            m == Node(j, j, x.before, x.before, Copying(0, false), Mem(SetValid(x.header), |x.blocks|, |x.writes|))
  {
    hide Path, OnDisk;
    states, steps := Begin(n);
    NewHeaderOnDisk(x, n.jcache, x.header, SetValid(x.header));
    states, steps := Takes(states, steps, n, Validate);
    m := Do(n, Validate);
    states, steps := Takes(states, steps, m, SyncJournal);
    m := Do(m, SyncJournal);
  }

  lemma Unflagged(x: Scan, states: seq<Node>, steps: seq<Step>, n: Node) returns (states': seq<Node>, steps': seq<Step>)
    requires UndisturbedRun(states, steps, n) && AtEntry(x, n, |x.blocks| + |x.writes|, true)
    requires !IsValid(x.header) && n.mem.header == SetValid(x.header)
    ensures |states'| == |states| + 2 && states <= states'
    ensures UndisturbedRun(states', steps', states'[|states| + 1]) && states'[|states| + 1].pc == Done
    ensures var j := PutHeader(n.jcache, x.header); DevicesOf(states'[|states| + 1]) == Devices(j, j, n.stable, n.cache)
  {
    hide Path, OnDisk;
    FlagsCancel(x.header);
    states', steps' := Takes(states, steps, n, Invalidate);
    states', steps' := Takes(states', steps', Do(n, Invalidate), SyncJournal);
  }
}
