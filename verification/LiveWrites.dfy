/** Live writing with crashes. Outside scans the server applies each write to the replica and syncs before
    it takes the next, without a journal. The replica is behind a write-back cache whose bytes can
    reach the device at any time. */
module LiveWrites {
  import opened Images

  datatype Pc =
    | Ready       // the last write is synced
    | Written     // a write is in the cache, not yet synced
    | Down        // crashed

  /** `n` writes have been applied and synced. */
  datatype Disk = Disk(n: nat, stable: Image, cache: Image, pc: Pc)

  datatype Step = WriteNext | Sync | Writeback(i: nat) | Crash

  predicate Enabled(history: seq<Write>, d: Disk, step: Step) {
    match step
    case WriteNext => d.pc.Ready? && d.n < |history|
    case Sync => d.pc.Written?
    case Writeback(i) => i < |d.stable| && i < |d.cache|
    case Crash => true
  }

  function Do(history: seq<Write>, d: Disk, step: Step): Disk
    requires Enabled(history, d, step)
  {
    match step
    case WriteNext => d.(cache := WriteAt(d.cache, history[d.n]), pc := Written)
    case Sync => Disk(d.n + 1, d.cache, d.cache, Ready)
    case Writeback(i) => d.(stable := d.stable[i := d.cache[i]])
    case Crash => d.(cache := d.stable, pc := Down)
  }

  /** From a replica that is the source after its first `from` writes. */
  ghost predicate IsRun(history: seq<Write>, base: Image, from: nat, states: seq<Disk>, steps: seq<Step>) {
    && |states| == |steps| + 1
    && from <= |history| && states[0] == Disk(from, At(history, base, from), At(history, base, from), Ready)
    && forall i :: 0 <= i < |steps| ==>
         Enabled(history, states[i], steps[i]) && states[i + 1] == Do(history, states[i], steps[i])
  }

  /** The replica holds the first `n` writes, and perhaps some bytes of the next. */
  ghost predicate Between(history: seq<Write>, base: Image, n: nat, t: Image) {
    if n < |history| then Torn(At(history, base, n), At(history, base, n + 1), t)
    else n == |history| && t == At(history, base, n)
  }

  ghost predicate Inv(history: seq<Write>, base: Image, d: Disk) {
    && Between(history, base, d.n, d.stable)
    && match d.pc
       case Ready => d.stable == d.cache == At(history, base, d.n)
       case Written => d.n < |history| && d.cache == At(history, base, d.n + 1)
       case Down => d.cache == d.stable
  }

  lemma StepKeeps(history: seq<Write>, base: Image, d: Disk, step: Step)
    requires Inv(history, base, d) && Enabled(history, d, step)
    ensures Inv(history, base, Do(history, d, step))
  {
    match step
    case WriteNext => AtNext(history, base, d.n);
    case Writeback(i) =>
      if !d.pc.Written? {
        assert d.stable[i := d.cache[i]] == d.stable;
      }
    case Sync =>
    case Crash =>
  }

  lemma {:induction false} RunKeepsInv(history: seq<Write>, base: Image, from: nat, states: seq<Disk>, steps: seq<Step>, i: nat)
    requires IsRun(history, base, from, states, steps) && i < |states|
    ensures Inv(history, base, states[i])
  {
    if i == 0 {
    } else {
      RunKeepsInv(history, base, from, states, steps, i - 1);
      StepKeeps(history, base, states[i - 1], steps[i - 1]);
    }
  }

  /** What a crash leaves: the writes that were synced, and any of the bytes of the one after them. */
  lemma CrashLeaves(history: seq<Write>, base: Image, from: nat, states: seq<Disk>, steps: seq<Step>, i: nat)
    requires IsRun(history, base, from, states, steps) && i < |states| && states[i].pc.Down?
    ensures Between(history, base, states[i].n, states[i].stable)
  {
    RunKeepsInv(history, base, from, states, steps, i);
  }

  /** The images differ in one byte at most. */
  predicate OneByteApart(d: Image, e: Image)
    requires |d| == |e|
  {
    forall i, j :: 0 <= i < |d| && 0 <= j < |d| && d[i] != e[i] && d[j] != e[j] ==> i == j
  }

  lemma OneByteDecides(d: Image, e: Image, t: Image)
    requires Torn(d, e, t) && OneByteApart(d, e)
    ensures t == d || t == e
  {
    if t != d {
      var k :| 0 <= k < |t| && t[k] != d[k];
      forall i | 0 <= i < |t| ensures t[i] == e[i] {
      }
    }
  }

  /** The write is in the cache, and the first `k` bytes of the device are those of `t`. */
  lemma {:induction false} TearTo(history: seq<Write>, base: Image, n: nat, t: Image, k: nat)
      returns (states: seq<Disk>, steps: seq<Step>)
    requires n < |history| && Torn(At(history, base, n), At(history, base, n + 1), t) && k <= |t|
    ensures IsRun(history, base, n, states, steps)
    ensures states[|steps|] == Disk(n, t[..k] + At(history, base, n)[k..], At(history, base, n + 1), Written)
    decreases k
  {
    var d, e := At(history, base, n), At(history, base, n + 1);
    if k == 0 {
      AtNext(history, base, n);
      assert t[..0] + d[0..] == d;
      states, steps := [Disk(n, d, d, Ready), Disk(n, d, e, Written)], [WriteNext];
    } else {
      states, steps := TearTo(history, base, n, t, k - 1);
      var x := t[..k - 1] + d[k - 1..];
      if t[k - 1] == d[k - 1] {
        assert t[..k] + d[k..] == x;
      } else {
        assert x[k - 1 := e[k - 1]] == t[..k] + d[k..];
        states, steps := states + [Disk(n, t[..k] + d[k..], e, Written)], steps + [Writeback(k - 1)];
      }
    }
  }

  /** A crash while write `n` is being applied can leave `t`. */
  ghost predicate CrashesAs(history: seq<Write>, base: Image, n: nat, t: Image) {
    exists states: seq<Disk>, steps: seq<Step> ::
      IsRun(history, base, n, states, steps) && states[|steps|] == Disk(n, t, t, Down)
  }

  /** What it can leave, exactly: every mixture of the replica without the write and with it. */
  lemma CrashOutcomes(history: seq<Write>, base: Image, n: nat, t: Image)
    requires n < |history|
    ensures CrashesAs(history, base, n, t) <==> Torn(At(history, base, n), At(history, base, n + 1), t)
  {
    if CrashesAs(history, base, n, t) {
      var states: seq<Disk>, steps: seq<Step> :|
        IsRun(history, base, n, states, steps) && states[|steps|] == Disk(n, t, t, Down);
      CrashLeaves(history, base, n, states, steps, |steps|);
    }
    if Torn(At(history, base, n), At(history, base, n + 1), t) {
      var states, steps := TearTo(history, base, n, t, |t|);
      assert t[..|t|] + At(history, base, n)[|t|..] == t;
      assert IsRun(history, base, n, states + [Disk(n, t, t, Down)], steps + [Crash]);
    }
  }

  /** Every crash leaves the replica without the write or with all of it exactly when the write changes
      one byte at most; otherwise some crash leaves a part of it. */
  lemma LiveCrashAtomic(history: seq<Write>, base: Image, n: nat)
    requires n < |history|
    ensures (forall t: Image :: CrashesAs(history, base, n, t) ==> t == At(history, base, n) || t == At(history, base, n + 1))
            <==> OneByteApart(At(history, base, n), At(history, base, n + 1))
  {
    hide CrashesAs;
    var d, e := At(history, base, n), At(history, base, n + 1);
    if OneByteApart(d, e) {
      forall t: Image | CrashesAs(history, base, n, t) ensures t == d || t == e {
        CrashOutcomes(history, base, n, t);
        OneByteDecides(d, e, t);
      }
    } else {
      var i, j :| 0 <= i < |d| && 0 <= j < |d| && d[i] != e[i] && d[j] != e[j] && i != j;
      var t := d[i := e[i]];
      CrashOutcomes(history, base, n, t);
      assert t[i] != d[i] && t[j] != e[j];
    }
  }
}
