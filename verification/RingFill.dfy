/** Puts that are not one step. `bdr_ring_buffer_put` reserves its slot under the lock and copies
    the data after releasing it, so several slots can be half written while other puts, reads and
    resets go on. This machine keeps, beside the ring in memory, the ring that atomic puts would
    give, and shows when userspace cannot tell the two apart. */
module RingFill {
  import opened Ring

  /** `open` holds the slots reserved but not yet filled, with the data that will go there. */
  datatype Memory<T> = Memory(ring: Ring<T>, ideal: Ring<T>, open: map<nat, T>)

  datatype Step<T> =
    | Reserve(x: T)
    | Scribble(p: nat, junk: T)   // part of the data was copied
    | Fill(p: nat)                // the copy is complete
    | ReadStep
    | ResetStep

  function Reserved<T>(r: Ring<T>): (q: Ring<T>)
    requires Valid(r)
  {
    if r.overflown then r
    else r.(length := r.length + 1,
            overflown := Wrap(r.offset + (r.length + 1), |r.slots|) == r.last)
  }

  function NextSlot<T>(r: Ring<T>): (p: nat)
    requires Valid(r)
  {
    Wrap(r.offset + r.length, |r.slots|)
  }

  /** No slot of the batch last handed out is still being filled. */
  ghost predicate BatchFilled<T>(m: Memory<T>)
    requires Valid(m.ring)
  {
    forall k: nat :: k < Gap(m.ring) ==> Place(m.ring, k) !in m.open
  }

  /** The discipline that keeps the bookkeeping apart from the fills: those of a batch end before the next
      batch is read, and none is under way at a reset. Puts and fills themselves are free. It does
      not say that a batch is filled when it is handed out, or when the client reads its slots. */
  ghost predicate Enabled<T>(m: Memory<T>, step: Step<T>)
    requires Valid(m.ring)
  {
    match step
    case Reserve(_) => true
    case Scribble(p, _) => p in m.open && p < |m.ring.slots|
    case Fill(p) => p in m.open && p < |m.ring.slots|
    case ReadStep => BatchFilled(m)
    case ResetStep => m.open == map[]
  }

  ghost function Do<T>(m: Memory<T>, step: Step<T>): (n: Memory<T>)
    requires Valid(m.ring) && Valid(m.ideal) && Enabled(m, step)
  {
    match step
    case Reserve(x) =>
      Memory(Reserved(m.ring), Put(m.ideal, x),
             if Reserved(m.ring).overflown then m.open else m.open[NextSlot(m.ring) := x])
    case Scribble(p, junk) => m.(ring := m.ring.(slots := m.ring.slots[p := junk]))
    case Fill(p) => m.(ring := m.ring.(slots := m.ring.slots[p := m.open[p]]), open := m.open - {p})
    case ReadStep => m.(ring := Read(m.ring), ideal := Read(m.ideal))
    case ResetStep => m.(ring := Reset(m.ring), ideal := Reset(m.ideal))
  }

  ghost predicate InWindow<T>(r: Ring<T>, p: nat)
    requires Valid(r)
  {
    exists k: nat :: k < Gap(r) + Stored(r) && Place(r, k) == p
  }

  /** The bookkeeping is that of the atomic ring, the slots differ at most where a fill is under
      way, and fills are under way only inside the window. */
  ghost predicate Inv<T>(m: Memory<T>) {
    && Valid(m.ring) && Valid(m.ideal)
    && m.ring.(slots := m.ideal.slots) == m.ideal
    && |m.ring.slots| == |m.ideal.slots|
    && (forall p :: 0 <= p < |m.ring.slots| && p !in m.open ==> m.ring.slots[p] == m.ideal.slots[p])
    && (forall p :: p in m.open ==> p < |m.ring.slots| && m.ideal.slots[p] == m.open[p] && InWindow(m.ring, p))
  }

  lemma NextSlotOutside<T>(r: Ring<T>)
    requires Valid(r) && !Reserved(r).overflown
    ensures !InWindow(r, NextSlot(r)) && InWindow(Reserved(r), NextSlot(r))
    ensures forall p: nat :: InWindow(r, p) ==> InWindow(Reserved(r), p)
  {
    var q := Reserved(r);
    assert Place(q, Gap(r) + r.length) == NextSlot(r);
    forall p: nat | InWindow(r, p) ensures InWindow(q, p) {
      var k: nat :| k < Gap(r) + Stored(r) && Place(r, k) == p;
      assert Place(q, k) == p;
    }
  }

  lemma ReadKeepsPending<T>(r: Ring<T>, p: nat)
    requires Valid(r) && InWindow(r, p)
    requires forall k: nat :: k < Gap(r) ==> Place(r, k) != p
    ensures InWindow(Read(r), p)
  {
    if !r.overflown {
      var k: nat :| k < Gap(r) + Stored(r) && Place(r, k) == p;
      assert Place(Read(r), k - Gap(r)) == p;
    }
  }

  lemma SameWindow<T>(r: Ring<T>, q: Ring<T>)
    requires Valid(r) && Valid(q) && q.(slots := r.slots) == r && |q.slots| == |r.slots|
    ensures forall p: nat :: InWindow(r, p) ==> InWindow(q, p)
  {
    forall p: nat | InWindow(r, p) ensures InWindow(q, p) {
      var k: nat :| k < Gap(r) + Stored(r) && Place(r, k) == p;
      assert Place(q, k) == p;
    }
  }

  lemma RefusedKeepsInv<T>(m: Memory<T>, x: T)
    requires Inv(m) && Reserved(m.ring).overflown
    ensures Inv(Do(m, Reserve(x)))
  {
    hide Window;
    var r, q := m.ring, Reserved(m.ring);
    forall p: nat | InWindow(r, p) ensures InWindow(q, p) {
      var k: nat :| k < Gap(r) + Stored(r) && Place(r, k) == p;
      assert Place(q, k) == p;
    }
    assert Put(m.ideal, x).slots == m.ideal.slots;
  }

  lemma AcceptedKeepsInv<T>(m: Memory<T>, x: T)
    requires Inv(m) && !Reserved(m.ring).overflown
    ensures Inv(Do(m, Reserve(x)))
  {
    hide Window, InWindow;
    NextSlotOutside(m.ring);
    assert Put(m.ideal, x).slots == m.ideal.slots[NextSlot(m.ring) := x];
  }

  lemma ReadKeepsInv<T>(m: Memory<T>)
    requires Inv(m) && BatchFilled(m)
    ensures Inv(Do(m, ReadStep))
  {
    forall p | p in m.open ensures InWindow(Read(m.ring), p) {
      assert forall k: nat :: k < Gap(m.ring) ==> Place(m.ring, k) != p;
      ReadKeepsPending(m.ring, p);
    }
  }

  lemma DoKeepsInv<T>(m: Memory<T>, step: Step<T>)
    requires Inv(m) && Enabled(m, step)
    ensures Inv(Do(m, step))
  {
    match step
    case Reserve(x) =>
      if Reserved(m.ring).overflown { RefusedKeepsInv(m, x); } else { AcceptedKeepsInv(m, x); }
    case Scribble(p, junk) => SameWindow(m.ring, Do(m, step).ring);
    case Fill(p) => SameWindow(m.ring, Do(m, step).ring);
    case ReadStep => ReadKeepsInv(m);
    case ResetStep =>
  }

  /** A run that keeps the discipline, from an empty ring. */
  ghost predicate IsRun<T>(states: seq<Memory<T>>, steps: seq<Step<T>>) {
    && |states| == |steps| + 1
    && |states[0].ring.slots| > 0
    && states[0] == Memory(New(states[0].ring.slots), New(states[0].ring.slots), map[])
    && forall i :: 0 <= i < |steps| ==>
         Valid(states[i].ring) && Valid(states[i].ideal) && Enabled(states[i], steps[i])
         && states[i + 1] == Do(states[i], steps[i])
  }

  lemma {:induction false} RunKeepsInv<T>(states: seq<Memory<T>>, steps: seq<Step<T>>, i: nat)
    requires IsRun(states, steps) && i < |states|
    ensures Inv(states[i])
  {
    if i == 0 {
    } else {
      RunKeepsInv(states, steps, i - 1);
      DoKeepsInv(states[i - 1], steps[i - 1]);
    }
  }

  /** In every state of every such run a slot that is reserved is a free one, and a batch whose
      fills have ended reads, slot by slot, as if every put had been atomic. */
  lemma FillsAreInvisible<T>(states: seq<Memory<T>>, steps: seq<Step<T>>, i: nat, info: Info, k: nat)
    requires IsRun(states, steps) && i < |states| && Valid(states[i].ring) && Valid(states[i].ideal)
    requires BatchFilled(states[i]) && info.offset == states[i].ring.last && k < Gap(states[i].ring)
    ensures k < Gap(states[i].ideal) && Decode(states[i].ring, info, k) == Batch(states[i].ideal)[k]
    ensures !Reserved(states[i].ring).overflown ==> NextSlot(states[i].ring) !in states[i].open
  {
    RunKeepsInv(states, steps, i);
    assert Place(states[i].ring, k) !in states[i].open;
    if !Reserved(states[i].ring).overflown {
      NextSlotOutside(states[i].ring);
    }
  }

  /** The fills have to end before the client reads the slots: here a slot is reserved, the batch with it
      is handed out, and the client finds what was in the slot before. */
  lemma UnfilledBatchIsVisible() returns (states: seq<Memory<int>>, steps: seq<Step<int>>)
    ensures IsRun(states, steps) && steps == [Reserve(7), ReadStep]
    ensures Valid(states[2].ideal) && Batch(states[2].ideal) == [7]
    ensures |states[2].ring.slots| == 3 && Decode(states[2].ring, InfoOf(states[1].ring), 0) == 0
  {
    hide Window;
    var free := [0, 0, 0];
    var m0 := Memory(New(free), New(free), map[]);
    var m1 := Memory(Ring(free, 0, 1, 0, false), Ring([7, 0, 0], 0, 1, 0, false), map[0 := 7]);
    var m2 := Memory(Ring(free, 1, 0, 0, false), Ring([7, 0, 0], 1, 0, 0, false), map[0 := 7]);
    assert Do(m0, Reserve(7)) == m1;
    assert Do(m1, ReadStep) == m2;
    states, steps := [m0, m1, m2], [Reserve(7), ReadStep];
    assert Place(m2.ideal, 0) == 0;
    FirstOfBatch(m2.ideal);
  }

  lemma FirstOfBatch<T>(r: Ring<T>)
    requires Valid(r) && Gap(r) == 1
    ensures Batch(r) == [r.slots[Place(r, 0)]]
  {
  }

  /** The same operations with atomic puts. */
  function OpsOf<T>(steps: seq<Step<T>>): seq<Op<T>> {
    if steps == [] then []
    else
      var before := OpsOf(steps[..|steps| - 1]);
      match steps[|steps| - 1]
      case Reserve(x) => before + [OpPut(x)]
      case Scribble(_, _) => before
      case Fill(_) => before
      case ReadStep => before + [OpRead]
      case ResetStep => before + [OpReset]
  }

  lemma AtomicStep<T>(slots: seq<T>, ops: seq<Op<T>>, op: Op<T>)
    requires |slots| > 0
    ensures var r := DoAll(Start(slots), ops).ring;
            DoAll(Start(slots), ops + [op]).ring == match op case OpPut(x) => Put(r, x) case OpRead => Read(r) case OpReset => Reset(r)
  {
    assert (ops + [op])[..|ops|] == ops;
  }

  lemma IdealStep<T>(m: Memory<T>, step: Step<T>)
    requires Valid(m.ring) && Valid(m.ideal) && Enabled(m, step)
    ensures Do(m, step).ideal == match step
                                 case Reserve(x) => Put(m.ideal, x)
                                 case ReadStep => Read(m.ideal)
                                 case ResetStep => Reset(m.ideal)
                                 case _ => m.ideal
  {
  }

  lemma RunStep<T>(states: seq<Memory<T>>, steps: seq<Step<T>>, i: nat)
    requires IsRun(states, steps) && i < |steps|
    ensures |states| == |steps| + 1 && Valid(states[i].ring) && Valid(states[i].ideal)
    ensures Enabled(states[i], steps[i]) && states[i + 1] == Do(states[i], steps[i])
  {
  }

  lemma StartOfRun<T>(states: seq<Memory<T>>, steps: seq<Step<T>>)
    requires IsRun(states, steps)
    ensures |states| == |steps| + 1 && |states[0].ring.slots| > 0
    ensures states[0].ideal == DoAll(Start(states[0].ring.slots), []).ring
  {
  }

  /** The ring that memory is compared with is the one that atomic puts give, operation by operation. */
  lemma {:induction false} IdealIsAtomic<T>(states: seq<Memory<T>>, steps: seq<Step<T>>, i: nat)
    requires IsRun(states, steps) && i < |states|
    ensures |states[0].ring.slots| > 0 && states[i].ideal == DoAll(Start(states[0].ring.slots), OpsOf(steps[..i])).ring
  {
    hide IsRun, Do, Enabled, DoAll, Put, Read, Reset, Valid;
    StartOfRun(states, steps);
    if i == 0 {
    } else {
      IdealIsAtomic(states, steps, i - 1);
      RunStep(states, steps, i - 1);
      IdealStep(states[i - 1], steps[i - 1]);
      assert steps[..i][..i - 1] == steps[..i - 1];
      var slots, ops := states[0].ring.slots, OpsOf(steps[..i - 1]);
      match steps[i - 1]
      case Reserve(x) => AtomicStep(slots, ops, OpPut(x));
      case ReadStep => AtomicStep(slots, ops, OpRead);
      case ResetStep => AtomicStep(slots, ops, OpReset);
      case Scribble(_, _) =>
      case Fill(_) =>
    }
  }

  /** Fills end: each takes its slot off the list, and when none is left memory is the atomic ring. */
  lemma FillsEnd<T>(states: seq<Memory<T>>, steps: seq<Step<T>>, i: nat)
    requires IsRun(states, steps) && i < |states|
    ensures i < |steps| && steps[i].Fill? ==> states[i + 1].open == states[i].open - {steps[i].p}
    ensures forall p: nat :: Valid(states[i].ring) && p in states[i].open ==> Enabled(states[i], Fill(p))
    ensures states[i].open == map[] ==> states[i].ring == states[i].ideal
  {
    RunKeepsInv(states, steps, i);
    if states[i].open == map[] {
      assert states[i].ring.slots == states[i].ideal.slots;
    }
  }

  /** While a slot is being filled it may hold anything. */
  lemma HalfFilled<T>(states: seq<Memory<T>>, steps: seq<Step<T>>, i: nat)
    requires IsRun(states, steps) && i < |steps| && steps[i].Scribble?
    ensures steps[i].p < |states[i + 1].ring.slots| && states[i + 1].ring.slots[steps[i].p] == steps[i].junk
    ensures states[i + 1].open == states[i].open && states[i + 1].ideal == states[i].ideal
  {
  }
}
