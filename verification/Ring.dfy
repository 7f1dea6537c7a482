/** The kernel ring buffer as a value: its bookkeeping, the batch handed to userspace and the
    writes pending behind it, and what any run of puts, reads and resets preserves. */
module Ring {

  /** `bdr_buffer_info` with the slots: new writes start at `offset`, there are `length` of them,
      and `last` is where the batch handed out by the previous read starts. */
  datatype Ring<T> = Ring(slots: seq<T>, offset: nat, length: nat, last: nat, overflown: bool)

  /** What a read returns to userspace. */
  datatype Info = Info(offset: nat, length: nat, overflown: bool)

  /** The remainder of `a` modulo `m`, for the values that positions in a ring of `m` slots take. */
  function Wrap(a: int, m: nat): (p: int)
    requires m > 0
  {
    if a < 0 then a + m else if a < m then a else a - m
  }

  lemma WrapIsRemainder(a: int, m: nat)
    requires 0 < m && 0 <= a + m < 3 * m
    ensures Wrap(a, m) == a % m
  {
    var q := if a < 0 then -1 else if a < m then 0 else 1;
    assert a == q * m + Wrap(a, m);
    RemainderUnique(a, m, q, Wrap(a, m));
  }

  lemma RemainderUnique(a: int, m: nat, q: int, s: int)
    requires m > 0 && a == q * m + s && 0 <= s < m
    ensures a % m == s
  {
    var d := q - a / m;
    assert d * m == a % m - s;
    assert d >= 1 ==> d * m >= m;
    assert d <= -1 ==> d * m + m <= 0;
  }

  ghost predicate Bounds<T>(r: Ring<T>) {
    |r.slots| > 0 && r.offset < |r.slots| && r.last < |r.slots|
  }

  /** Size of the batch last handed to userspace. */
  function Gap<T>(r: Ring<T>): (n: nat)
    requires Bounds(r)
    ensures n < |r.slots|
  {
    Wrap(r.offset - r.last, |r.slots|)
  }

  /** While the flag is clear one slot at least stays free between the newest write and the batch;
      a set flag means that the writes reached the batch, and then `length` is not zero. */
  ghost predicate Valid<T>(r: Ring<T>) {
    && Bounds(r)
    && (!r.overflown ==> Gap(r) + r.length < |r.slots|)
    && (r.overflown ==> r.length >= 1 && Gap(r) + r.length == |r.slots|)
  }

  function New<T>(slots: seq<T>): (r: Ring<T>)
    requires |slots| > 0
    ensures Valid(r) && Batch(r) == [] && Pending(r) == []
  {
    Ring(slots, 0, 0, 0, false)
  }

  function Put<T>(r: Ring<T>, x: T): (q: Ring<T>)
    requires Valid(r)
    ensures Valid(q) && |q.slots| == |r.slots|
  {
    if r.overflown then r
    else if Wrap(r.offset + (r.length + 1), |r.slots|) == r.last then r.(length := r.length + 1, overflown := true)
    else r.(slots := r.slots[Wrap(r.offset + r.length, |r.slots|) := x], length := r.length + 1)
  }

  function Read<T>(r: Ring<T>): (q: Ring<T>)
    requires Valid(r)
    ensures Valid(q) && |q.slots| == |r.slots|
  {
    if r.overflown then r
    else r.(last := r.offset, offset := Wrap(r.offset + r.length, |r.slots|), length := 0)
  }

  function InfoOf<T>(r: Ring<T>): Info {
    Info(r.offset, r.length, r.overflown)
  }

  function Reset<T>(r: Ring<T>): Ring<T> {
    r.(offset := 0, length := 0, last := 0, overflown := false)
  }

  /** Position of the `k`-th slot of the window that starts with the batch. */
  function Place<T>(r: Ring<T>, k: nat): (p: nat)
    requires Bounds(r) && k < |r.slots|
    ensures p < |r.slots|
  {
    Wrap(r.last + k, |r.slots|)
  }

  /** The accepted writes not yet read: a put that set the flag counted itself but stored nothing. */
  function Stored<T>(r: Ring<T>): (n: nat)
    requires Valid(r)
  {
    if r.overflown then r.length - 1 else r.length
  }

  /** The batch and, behind it, the pending writes. */
  function Window<T>(r: Ring<T>): (w: seq<T>)
    requires Valid(r)
    ensures |w| == Gap(r) + Stored(r)
  {
    seq(Gap(r) + Stored(r), k requires 0 <= k < Gap(r) + Stored(r) => r.slots[Place(r, k)])
  }

  function Batch<T>(r: Ring<T>): (b: seq<T>)
    requires Valid(r)
    ensures |b| == Gap(r)
  {
    Window(r)[..Gap(r)]
  }

  function Pending<T>(r: Ring<T>): (p: seq<T>)
    requires Valid(r)
    ensures |p| == Stored(r)
  {
    Window(r)[Gap(r)..]
  }

  /** The write that userspace finds at index `i` of the batch that `info` describes. */
  function Decode<T>(r: Ring<T>, info: Info, i: nat): T
    requires info.offset < |r.slots| && i < |r.slots|
  {
    r.slots[Wrap(info.offset + i, |r.slots|)]
  }

  // --- what each operation does to the batch and the pending writes ----------------------------

  lemma PutPlaces<T>(r: Ring<T>, x: T)
    requires Valid(r) && !r.overflown
    ensures Gap(Put(r, x)) == Gap(r)
    ensures forall k: nat :: k < Gap(r) + r.length ==> Place(Put(r, x), k) == Place(r, k) != Wrap(r.offset + r.length, |r.slots|)
    ensures Place(Put(r, x), Gap(r) + r.length) == Wrap(r.offset + r.length, |r.slots|)
    ensures Put(r, x).overflown <==> Gap(r) + r.length + 1 == |r.slots|
  {
  }

  lemma PutWindow<T>(r: Ring<T>, x: T)
    requires Valid(r)
    ensures Gap(Put(r, x)) == Gap(r)
    ensures Window(Put(r, x)) == if Put(r, x).overflown then Window(r) else Window(r) + [x]
  {
    if !r.overflown {
      PutPlaces(r, x);
      assert Stored(Put(r, x)) == if Put(r, x).overflown then r.length else r.length + 1;
    }
  }

  /** A put appends to the pending writes and leaves the batch alone, or it is refused, and then
      nothing is stored and the flag is set for good. */
  lemma PutEffect<T>(r: Ring<T>, x: T)
    requires Valid(r)
    ensures Batch(Put(r, x)) == Batch(r)
    ensures Pending(Put(r, x)) == if Put(r, x).overflown then Pending(r) else Pending(r) + [x]
    ensures Put(r, x).overflown <==> r.overflown || Gap(r) + r.length + 1 == |r.slots|
    ensures r.overflown ==> Put(r, x) == r
    ensures Put(r, x).last == r.last && Put(r, x).offset == r.offset
  {
    PutWindow(r, x);
    if !r.overflown {
      PutPlaces(r, x);
    }
  }

  /** A put changes no slot of the batch and no pending slot. */
  lemma PutStable<T>(r: Ring<T>, x: T, k: nat)
    requires Valid(r) && k < Gap(r) + Stored(r)
    ensures Put(r, x).slots[Place(r, k)] == r.slots[Place(r, k)]
  {
  }

  /** A read turns the pending writes into the batch, unless writes were lost: then nothing moves. */
  lemma ReadEffect<T>(r: Ring<T>)
    requires Valid(r)
    ensures r.overflown ==> Read(r) == r && InfoOf(r).length != 0
    ensures !r.overflown ==> Batch(Read(r)) == Pending(r) && Pending(Read(r)) == [] && !Read(r).overflown
    ensures !r.overflown ==> Read(r).last == InfoOf(r).offset && Gap(Read(r)) == InfoOf(r).length
  {
    if !r.overflown {
      var q := Read(r);
      assert Gap(q) == r.length;
      forall k: nat | k < r.length ensures Window(q)[k] == Pending(r)[k] {
        assert Place(q, k) == Place(r, Gap(r) + k);
      }
    }
  }

  lemma ResetEffect<T>(r: Ring<T>)
    requires |r.slots| > 0
    ensures Valid(Reset(r)) && |Reset(r).slots| == |r.slots| && !Reset(r).overflown
    ensures Batch(Reset(r)) == [] && Pending(Reset(r)) == []
  {
  }

  /** The client's index arithmetic finds exactly the batch, as long as no further read was made. */
  lemma DecodeBatch<T>(r: Ring<T>, info: Info, i: nat)
    requires Valid(r) && info.offset == r.last && i < Gap(r)
    ensures Decode(r, info, i) == Batch(r)[i]
  {
  }

  // --- runs ------------------------------------------------------------------------------------

  datatype Op<T> = OpPut(x: T) | OpRead | OpReset

  /** A ring with a record, since the last reset, of the writes put and the batches handed out. */
  datatype Traced<T> = Traced(ring: Ring<T>, puts: seq<T>, delivered: seq<T>)

  function Do<T>(t: Traced<T>, op: Op<T>): (u: Traced<T>)
    requires Valid(t.ring)
    ensures Valid(u.ring) && |u.ring.slots| == |t.ring.slots|
  {
    match op
    case OpPut(x) => t.(ring := Put(t.ring, x), puts := t.puts + [x])
    case OpRead =>
      var r := Read(t.ring);
      var info := InfoOf(t.ring);
      t.(ring := r,
         delivered := t.delivered + if info.overflown then [] else seq(info.length, i requires 0 <= i < info.length => Decode(r, info, i)))
    case OpReset => Traced(Reset(t.ring), [], [])
  }

  /** Delivered and pending writes are exactly the first puts, in order; all of them as long as the
      flag is clear; and a set flag shows in `length`. */
  ghost predicate Fifo<T>(t: Traced<T>) {
    && Valid(t.ring)
    && t.delivered + Pending(t.ring) <= t.puts
    && (!t.ring.overflown ==> t.delivered + Pending(t.ring) == t.puts)
    && (t.ring.overflown ==> |t.delivered + Pending(t.ring)| < |t.puts|)
    && |Batch(t.ring)| <= |t.delivered|
    && Batch(t.ring) == t.delivered[|t.delivered| - |Batch(t.ring)|..]
  }

  function DoAll<T>(t: Traced<T>, ops: seq<Op<T>>): (u: Traced<T>)
    requires Valid(t.ring)
    ensures Valid(u.ring) && |u.ring.slots| == |t.ring.slots|
  {
    if ops == [] then t else Do(DoAll(t, ops[..|ops| - 1]), ops[|ops| - 1])
  }

  function Start<T>(slots: seq<T>): (t: Traced<T>)
    requires |slots| > 0
    ensures Fifo(t)
  {
    Traced(New(slots), [], [])
  }

  lemma DoKeepsFifo<T>(t: Traced<T>, op: Op<T>)
    requires Fifo(t)
    ensures Fifo(Do(t, op))
  {
    hide Window, Gap;
    match op
    case OpPut(x) =>
      PutEffect(t.ring, x);
    case OpRead =>
      ReadEffect(t.ring);
      var r, info := Read(t.ring), InfoOf(t.ring);
      if !info.overflown {
        var decoded := seq(info.length, i requires 0 <= i < info.length => Decode(r, info, i));
        assert decoded == Batch(r) by {
          forall i: nat | i < info.length ensures decoded[i] == Batch(r)[i] {
            DecodeBatch(r, info, i);
          }
        }
      }
    case OpReset =>
      ResetEffect(t.ring);
  }

  /** The puts of a run since its last reset. */
  function PutsOf<T>(ops: seq<Op<T>>): (puts: seq<T>) {
    if ops == [] then []
    else
      var before := PutsOf(ops[..|ops| - 1]);
      match ops[|ops| - 1]
      case OpPut(x) => before + [x]
      case OpRead => before
      case OpReset => []
  }

  lemma {:induction false} PutsAreRecorded<T>(slots: seq<T>, ops: seq<Op<T>>)
    requires |slots| > 0
    ensures DoAll(Start(slots), ops).puts == PutsOf(ops)
  {
    if ops == [] {
    } else {
      PutsAreRecorded(slots, ops[..|ops| - 1]);
    }
  }

  /** The ring refines a queue, over every run: what userspace decoded since the last reset,
      followed by what is pending, is what was put, none lost, repeated or reordered; when writes
      were lost the flag is set, and `length`, which the client looks at first, is not zero. */
  lemma {:induction false} RunIsFifo<T>(slots: seq<T>, ops: seq<Op<T>>)
    requires |slots| > 0
    ensures Fifo(DoAll(Start(slots), ops)) && DoAll(Start(slots), ops).puts == PutsOf(ops)
  {
    PutsAreRecorded(slots, ops);
    if ops == [] {
    } else {
      RunIsFifo(slots, ops[..|ops| - 1]);
      DoKeepsFifo(DoAll(Start(slots), ops[..|ops| - 1]), ops[|ops| - 1]);
    }
  }

  /** A client that sees no new writes has seen every put. */
  lemma NoSilentLoss<T>(slots: seq<T>, ops: seq<Op<T>>)
    requires |slots| > 0
    ensures var t := DoAll(Start(slots), ops);
            InfoOf(t.ring).length == 0 ==> !t.ring.overflown && t.delivered == PutsOf(ops)
  {
    RunIsFifo(slots, ops);
  }

  /** A read hands over all that was put, unless the flag is set; a reset clears the flag. */
  lemma ReadDeliversAll<T>(slots: seq<T>, ops: seq<Op<T>>)
    requires |slots| > 0
    ensures var t := DoAll(Start(slots), ops + [OpRead]);
            !t.ring.overflown ==> t.delivered == PutsOf(ops) && Pending(t.ring) == []
    ensures var t := DoAll(Start(slots), ops + [OpReset]); !t.ring.overflown && t.delivered == [] == t.puts
  {
    var before := DoAll(Start(slots), ops);
    RunIsFifo(slots, ops);
    DoKeepsFifo(before, OpRead);
    ReadEffect(before.ring);
    assert (ops + [OpRead])[..|ops|] == ops && (ops + [OpReset])[..|ops|] == ops;
  }

  /** Once set, the flag freezes the ring until the next reset. */
  lemma {:induction false} FrozenUntilReset<T>(t: Traced<T>, ops: seq<Op<T>>)
    requires Valid(t.ring) && t.ring.overflown && OpReset !in ops
    ensures DoAll(t, ops).ring == t.ring && DoAll(t, ops).delivered == t.delivered
  {
    if ops == [] {
    } else {
      FrozenUntilReset(t, ops[..|ops| - 1]);
    }
  }
}
