/** Block device images, writes to them, and the algebra of applying a log of writes.

    The central result is `CopyThenLog`: an image copied while the device keeps changing, each
    byte at a time of its own, becomes the exact device once the writes logged meanwhile are
    applied to it in order. */
module Images {

  type byte = b: int | 0 <= b < 256

  type Image = seq<byte>

  /** One write as it reaches a device: the bytes and the byte offset they go to. */
  datatype Write = Write(offset: nat, data: seq<byte>)

  predicate Covers(w: Write, i: int) {
    w.offset <= i < w.offset + |w.data|
  }

  /** A device write. Bytes past the end of the device are not stored. */
  function WriteAt(d: Image, w: Write): (r: Image)
    ensures |r| == |d|
  {
    seq(|d|, i requires 0 <= i < |d| => if Covers(w, i) then w.data[i - w.offset] else d[i])
  }

  /** `r` is `d` with `data` from byte `offset` on, as far as the device goes. */
  predicate Overwritten(d: Image, offset: nat, data: seq<byte>, r: Image) {
    && |r| == |d|
    && forall i :: 0 <= i < |d| ==> r[i] == if offset <= i < offset + |data| then data[i - offset] else d[i]
  }

  lemma WriteOverwrites(d: Image, w: Write)
    ensures Overwritten(d, w.offset, w.data, WriteAt(d, w))
  {
  }

  /** Every byte of `t` is the one of `d` or the one of `e`. */
  predicate Torn(d: Image, e: Image, t: Image) {
    |d| == |e| == |t| && forall i :: 0 <= i < |t| ==> t[i] == d[i] || t[i] == e[i]
  }

  /** All writes of `ws`, in order. */
  function Apply(ws: seq<Write>, d: Image): (r: Image)
    ensures |r| == |d|
  {
    if ws == [] then d else WriteAt(Apply(ws[..|ws| - 1], d), ws[|ws| - 1])
  }

  /** A journal replayed: correct blocks first, then writes. */
  function Replayed(blocks: seq<Write>, writes: seq<Write>, d: Image): (r: Image)
    ensures |r| == |d|
  {
    Apply(writes, Apply(blocks, d))
  }

  /** The last write of `ws` that covers byte `i`, or -1. */
  function LastCover(ws: seq<Write>, i: int): (k: int)
    ensures -1 <= k < |ws|
    ensures k >= 0 ==> Covers(ws[k], i)
    ensures forall j :: k < j < |ws| ==> !Covers(ws[j], i)
  {
    if ws == [] then -1
    else if Covers(ws[|ws| - 1], i) then |ws| - 1
    else LastCover(ws[..|ws| - 1], i)
  }

  predicate Covered(ws: seq<Write>, i: int) {
    exists k :: 0 <= k < |ws| && Covers(ws[k], i)
  }

  /** The two images hold the same bytes wherever no write of `ws` goes. */
  predicate AgreeOutside(ws: seq<Write>, d: Image, e: Image) {
    |d| == |e| && forall i :: 0 <= i < |d| && !Covered(ws, i) ==> d[i] == e[i]
  }

  /** Every byte ends up as the last write that covers it left it, or as it was. */
  lemma {:induction false} ApplyByte(ws: seq<Write>, d: Image, i: nat)
    requires i < |d|
    ensures var k := LastCover(ws, i);
            Apply(ws, d)[i] == if k < 0 then d[i] else ws[k].data[i - ws[k].offset]
  {
    if ws == [] {
    } else {
      ApplyByte(ws[..|ws| - 1], d, i);
    }
  }

  lemma {:induction false} ApplyConcat(ws: seq<Write>, vs: seq<Write>, d: Image)
    ensures Apply(ws + vs, d) == Apply(vs, Apply(ws, d))
  {
    if vs == [] {
      assert ws + vs == ws;
    } else {
      ApplyConcat(ws, vs[..|vs| - 1], d);
      assert (ws + vs)[..|ws + vs| - 1] == ws + vs[..|vs| - 1];
    }
  }

  lemma ApplyFirst(ws: seq<Write>, d: Image)
    requires ws != []
    ensures Apply(ws, d) == Apply(ws[1..], WriteAt(d, ws[0]))
  {
    ApplyConcat(ws[..1], ws[1..], d);
    assert ws[..1] + ws[1..] == ws;
    assert ws[..1][..0] == [];
  }

  /** Whatever was in the bytes that `ws` covers is absorbed: the outcome does not depend on it. */
  lemma Absorb(ws: seq<Write>, d: Image, e: Image)
    requires AgreeOutside(ws, d, e)
    ensures Apply(ws, d) == Apply(ws, e)
  {
    forall i | 0 <= i < |d| ensures Apply(ws, d)[i] == Apply(ws, e)[i] {
      ApplyByte(ws, d, i);
      ApplyByte(ws, e, i);
      assert LastCover(ws, i) < 0 ==> !Covered(ws, i);
    }
  }

  lemma ApplyAgrees(ws: seq<Write>, d: Image)
    ensures AgreeOutside(ws, d, Apply(ws, d))
  {
    forall i | 0 <= i < |d| && !Covered(ws, i) ensures d[i] == Apply(ws, d)[i] {
      ApplyByte(ws, d, i);
    }
  }

  /** Every byte that `ws` writes last is the one that `d` holds. */
  predicate Repeats(ws: seq<Write>, d: Image) {
    forall i :: 0 <= i < |d| && LastCover(ws, i) >= 0 ==>
      var w := ws[LastCover(ws, i)]; w.data[i - w.offset] == d[i]
  }

  /** Exactly the logs that repeat what is there leave an image as it is. */
  lemma LeavesExactly(ws: seq<Write>, d: Image)
    ensures Apply(ws, d) == d <==> Repeats(ws, d)
  {
    forall i: nat | i < |d|
      ensures Apply(ws, d)[i] == if LastCover(ws, i) < 0 then d[i]
                                 else ws[LastCover(ws, i)].data[i - ws[LastCover(ws, i)].offset]
    {
      ApplyByte(ws, d, i);
    }
    if Repeats(ws, d) {
      forall i | 0 <= i < |d| ensures Apply(ws, d)[i] == d[i] {
      }
    }
  }

  // --- the history of a device ----------------------------------------------------------------

  /** The device after the first `t` writes of its history. */
  function At(history: seq<Write>, base: Image, t: nat): (d: Image)
    requires t <= |history|
    ensures |d| == |base|
  {
    Apply(history[..t], base)
  }

  /** Byte `i` had the value `b` at some time between `lo` and `hi`. */
  ghost predicate Seen(history: seq<Write>, base: Image, lo: nat, hi: nat, i: nat, b: byte)
    requires i < |base| && hi <= |history|
  {
    exists t :: lo <= t <= hi && At(history, base, t)[i] == b
  }

  /** Every byte of `copy` is one the device had at some time between `lo` and `hi`. */
  ghost predicate CopiedBetween(history: seq<Write>, base: Image, lo: nat, hi: nat, copy: Image)
    requires hi <= |history|
  {
    |copy| == |base| && forall i: nat :: i < |base| ==> Seen(history, base, lo, hi, i, copy[i])
  }

  lemma AtExtends(history: seq<Write>, more: seq<Write>, base: Image, t: nat)
    requires t <= |history|
    ensures At(history + more, base, t) == At(history, base, t)
  {
    assert (history + more)[..t] == history[..t];
  }

  lemma AtNext(history: seq<Write>, base: Image, t: nat)
    requires t < |history|
    ensures At(history, base, t + 1) == WriteAt(At(history, base, t), history[t])
  {
    assert history[..t + 1][..t] == history[..t];
  }

  lemma AtFrom(history: seq<Write>, base: Image, lo: nat, hi: nat)
    requires lo <= hi <= |history|
    ensures At(history, base, hi) == Apply(history[lo..hi], At(history, base, lo))
  {
    ApplyConcat(history[..lo], history[lo..hi], base);
    assert history[..lo] + history[lo..hi] == history[..hi];
  }

  /** Two histories, one after the other. */
  lemma AtJoin(past: seq<Write>, history: seq<Write>, base: Image, t: nat)
    requires t <= |history|
    ensures At(past + history, base, |past| + t) == At(history, At(past, base, |past|), t)
  {
    ApplyConcat(past, history[..t], base);
    assert (past + history)[..|past| + t] == past + history[..t];
    assert past[..|past|] == past;
  }

  /** What was seen stays seen as the history grows and the interval widens. */
  lemma SeenLater(history: seq<Write>, more: seq<Write>, base: Image, lo: nat, hi: nat, hi': nat, i: nat, b: byte)
    requires i < |base| && hi <= |history| && hi <= hi' <= |history + more|
    requires Seen(history, base, lo, hi, i, b)
    ensures Seen(history + more, base, lo, hi', i, b)
  {
    var t :| lo <= t <= hi && At(history, base, t)[i] == b;
    AtExtends(history, more, base, t);
  }

  lemma CopiedLater(history: seq<Write>, more: seq<Write>, base: Image, lo: nat, hi: nat, hi': nat, copy: Image)
    requires hi <= |history| && hi <= hi' <= |history + more|
    requires CopiedBetween(history, base, lo, hi, copy)
    ensures CopiedBetween(history + more, base, lo, hi', copy)
  {
    forall i: nat | i < |base| ensures Seen(history + more, base, lo, hi', i, copy[i]) {
      SeenLater(history, more, base, lo, hi, hi', i, copy[i]);
    }
  }

  /** A byte that no logged write touched kept its value over the whole interval. */
  lemma Untouched(history: seq<Write>, base: Image, lo: nat, hi: nat, i: nat, b: byte)
    requires lo <= hi <= |history| && i < |base|
    requires Seen(history, base, lo, hi, i, b) && !Covered(history[lo..hi], i)
    ensures b == At(history, base, lo)[i] == At(history, base, hi)[i]
  {
    var t :| lo <= t <= hi && At(history, base, t)[i] == b;
    AtFrom(history, base, lo, t);
    ApplyByte(history[lo..t], At(history, base, lo), i);
    forall k | 0 <= k < t - lo ensures !Covers(history[lo..t][k], i) {
      assert history[lo..t][k] == history[lo..hi][k];
    }
    AtFrom(history, base, lo, hi);
    ApplyByte(history[lo..hi], At(history, base, lo), i);
  }

  /** A copy made while the device changed, followed by the log of those changes, is the device. */
  lemma CopyThenLog(history: seq<Write>, base: Image, lo: nat, hi: nat, end: nat, copy: Image)
    requires lo <= hi <= end <= |history|
    requires CopiedBetween(history, base, lo, hi, copy)
    ensures Apply(history[lo..end], copy) == At(history, base, end)
  {
    CopiedLater(history, [], base, lo, hi, end, copy);
    assert history + [] == history;
    forall i: nat | i < |base| && !Covered(history[lo..end], i) ensures copy[i] == At(history, base, lo)[i] {
      Untouched(history, base, lo, end, i, copy[i]);
    }
    Absorb(history[lo..end], copy, At(history, base, lo));
    AtFrom(history, base, lo, end);
  }

  /** Exactly which copies a log repairs: those that hold, in every byte the log leaves alone, the
      value the device had when the log began. A copy that missed a write made before the log
      began, and not repeated in it, stays wrong. */
  lemma LogRepairsExactly(history: seq<Write>, base: Image, lo: nat, end: nat, copy: Image)
    requires lo <= end <= |history| && |copy| == |base|
    ensures Apply(history[lo..end], copy) == At(history, base, end)
            <==> AgreeOutside(history[lo..end], copy, At(history, base, lo))
  {
    var log := history[lo..end];
    AtFrom(history, base, lo, end);
    if AgreeOutside(log, copy, At(history, base, lo)) {
      Absorb(log, copy, At(history, base, lo));
    } else {
      var i :| 0 <= i < |base| && !Covered(log, i) && copy[i] != At(history, base, lo)[i];
      ApplyByte(log, copy, i);
      ApplyByte(log, At(history, base, lo), i);
    }
  }
}
