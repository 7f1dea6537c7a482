/** The ring buffer in memory: the kernel's operations on its slots, the capture of writes into it
    and the client's reading of a batch. */
module RingBuffer {
  import opened Images
  import opened Codec
  import R = Ring

  const PAGE: nat := 4096
  const SECTOR: nat := 512

  /** `bdr_write_info`. */
  datatype Slot = Slot(sector: u32, size: u32, data: seq<byte>)

  predicate SlotOk(s: Slot) {
    |s.data| == PAGE && s.size <= PAGE
  }

  /** The write that a slot stands for: bytes past `size` are left over from earlier writes. */
  function Meaning(s: Slot): Write
    requires SlotOk(s)
  {
    Write(SECTOR * s.sector, s.data[..s.size])
  }

  function Meanings(slots: seq<Slot>): (ws: seq<Write>)
    requires forall i :: 0 <= i < |slots| ==> SlotOk(slots[i])
    ensures |ws| == |slots|
  {
    seq(|slots|, i requires 0 <= i < |slots| => Meaning(slots[i]))
  }

  datatype Status = Success | InvalidArgument | OutOfMemory

  class RingBuffer {
    const slots: array<Slot>
    var offset: nat
    var length: nat
    var last: nat
    var overflown: bool

    ghost predicate Valid()
      reads this, slots
    {
      (forall i :: 0 <= i < slots.Length ==> SlotOk(slots[i])) && R.Valid(Model())
    }

    ghost function Model(): R.Ring<Write>
      requires forall i :: 0 <= i < slots.Length ==> SlotOk(slots[i])
      reads this, slots
    {
      R.Ring(Meanings(slots[..]), offset, length, last, overflown)
    }

    constructor (maxWrites: u32)
      requires maxWrites > 0
      ensures Valid() && fresh(slots) && slots.Length == maxWrites
      ensures !overflown && R.Batch(Model()) == [] && R.Pending(Model()) == []
    {
      slots := new Slot[maxWrites](_ => Slot(0, 0, Zeros(PAGE)));
      offset, length, last, overflown := 0, 0, 0, false;
    }

    /** `bdr_ring_buffer_init`: a ring without slots is refused, and so is one for which there is no
        memory; `gotMemory` is the outcome of the allocation. */
    static method Init(maxWrites: u32, gotMemory: bool) returns (status: Status, rb: RingBuffer?)
      ensures status == if maxWrites == 0 then InvalidArgument else if !gotMemory then OutOfMemory else Success
      ensures rb != null <==> status == Success
      ensures rb != null ==> fresh(rb) && rb.Valid() && rb.slots.Length == maxWrites && R.Pending(rb.Model()) == []
    {
      if maxWrites == 0 {
        return InvalidArgument, null;
      }
      if !gotMemory {
        return OutOfMemory, null;
      }
      rb := new RingBuffer(maxWrites);
      status := Success;
    }

    /** `bdr_ring_buffer_update_unsafe`. */
    method Update()
      requires Valid() && !overflown
      modifies `length, `overflown
      ensures length == old(length) + 1
      ensures overflown <==> R.Wrap(offset + length, slots.Length) == last
    {
      length := length + 1;
      R.WrapIsRemainder(offset + length, slots.Length);
      if (offset + length) % slots.Length == last {
        overflown := true;
      }
    }

    /** `bdr_ring_buffer_put`, with the part of the page that is to be copied. */
    method Put(sector: u32, size: u32, page: seq<byte>, pageOffset: nat, len: nat) returns (ok: bool)
      requires Valid() && |page| == PAGE && pageOffset <= PAGE && size == Min(len, PAGE - pageOffset)
      modifies this, slots
      ensures Valid()
      ensures Model() == R.Put(old(Model()), Write(SECTOR * sector, page[pageOffset..pageOffset + size]))
      ensures ok <==> !overflown
    {
      if overflown {
        return false;
      }
      ghost var w := Write(SECTOR * sector, page[pageOffset..pageOffset + size]);
      ghost var before := Meanings(slots[..]);
      var position := offset + length;
      Update();
      if overflown {
        return false;
      }
      R.WrapIsRemainder(position, slots.Length);
      var target := position % slots.Length;
      var copied := Min(len, PAGE - pageOffset);
      slots[target] := Slot(sector, size, page[pageOffset..pageOffset + copied] + slots[target].data[copied..]);
      assert Meanings(slots[..]) == before[target := w];
      return true;
    }

    /** `bdr_buffer_read_routine`. */
    method Read() returns (info: R.Info)
      requires Valid()
      modifies this
      ensures Valid() && Model() == R.Read(old(Model())) && info == R.InfoOf(old(Model()))
    {
      info := R.Info(offset, length, overflown);
      if !overflown {
        R.WrapIsRemainder(offset + length, slots.Length);
        last := offset;
        offset := (offset + length) % slots.Length;
        length := 0;
      }
    }

    method Reset()
      requires Valid()
      modifies this
      ensures Valid() && Model() == R.Reset(old(Model()))
    {
      R.ResetEffect(Model());
      offset, length, last, overflown := 0, 0, 0, false;
    }

    lemma SlotOfBatch(info: R.Info, i: nat)
      requires Valid() && info.offset == last && info.length == R.Gap(Model()) && i < info.length
      ensures (info.offset + i) % slots.Length < slots.Length
      ensures var e := Payload(slots[(info.offset + i) % slots.Length]);
              e.size <= |e.data| && ToWrite(e) == R.Batch(Model())[i]
    {
      R.WrapIsRemainder(info.offset + i, slots.Length);
      R.DecodeBatch(Model(), info, i);
    }

    /** `ProcessBufferInfo`: the payloads that the client sends for a batch are the batch, up to the first
        write at which the main loop finds itself paused; `paused` gives the answers of the pause
        controller. */
    method ProcessBufferInfo(info: R.Info, mainLoop: bool, paused: nat -> bool) returns (sent: seq<Entry>)
      requires Valid() && info.offset == last && info.length == R.Gap(Model())
      ensures |sent| <= info.length && (|sent| < info.length ==> mainLoop && paused(|sent|))
      ensures forall i: nat :: i < |sent| && mainLoop ==> !paused(i)
      ensures forall i :: 0 <= i < |sent| ==> sent[i].size <= |sent[i].data| && ToWrite(sent[i]) == R.Batch(Model())[i]
    {
      hide R.Window, R.Gap, ToWrite, Payload;
      sent := [];
      var i := 0;
      while i < info.length
        invariant 0 <= i <= info.length && |sent| == i
        invariant forall k: nat :: k < i && mainLoop ==> !paused(k)
        invariant forall k :: 0 <= k < i ==> sent[k].size <= |sent[k].data| && ToWrite(sent[k]) == R.Batch(Model())[k]
      {
        if paused(i) && mainLoop {
          return;
        }
        SlotOfBatch(info, i);
        sent := sent + [Payload(slots[(info.offset + i) % slots.Length])];
        i := i + 1;
      }
    }
  }

  // --- capture --------------------------------------------------------------------------------------

  /** The puts that the capture of a segment attempts, in order. */
  function Captured(sector: u32, len: nat, pageOffset: nat, page: seq<byte>): (ws: seq<Write>)
    requires |page| == PAGE && pageOffset <= PAGE
    decreases len, pageOffset
  {
    if len == 0 then []
    else
      var size := Min(len, PAGE - pageOffset);
      [Write(SECTOR * sector, page[pageOffset..pageOffset + size])]
        + Captured((sector + 1) % U32, len - size, 0, page)
  }

  function PutAll(r: R.Ring<Write>, ws: seq<Write>): (q: R.Ring<Write>)
    requires R.Valid(r)
    ensures R.Valid(q)
    decreases |ws|
  {
    if ws == [] then r else PutAll(R.Put(r, ws[0]), ws[1..])
  }

  lemma {:induction false} PutAllFrozen(r: R.Ring<Write>, ws: seq<Write>)
    requires R.Valid(r) && r.overflown
    ensures PutAll(r, ws) == r
    decreases |ws|
  {
    if ws == [] {
    } else {
      PutAllFrozen(r, ws[1..]);
    }
  }

  /** How many puts the ring still takes. */
  ghost function Room(r: R.Ring<Write>): (n: nat)
    requires R.Valid(r)
  {
    if r.overflown then 0 else |r.slots| - 1 - R.Gap(r) - r.length
  }

  /** Of the writes put, the first that fit are pending behind those that were; one more sets the flag. */
  ghost predicate Queued(r: R.Ring<Write>, ws: seq<Write>, q: R.Ring<Write>) {
    && R.Valid(r) && R.Valid(q)
    && R.Batch(q) == R.Batch(r)
    && R.Pending(q) == R.Pending(r) + ws[..Min(|ws|, Room(r))]
    && (q.overflown <==> r.overflown || |ws| > Room(r))
  }

  lemma {:induction false} PutAllQueues(r: R.Ring<Write>, ws: seq<Write>)
    requires R.Valid(r)
    ensures Queued(r, ws, PutAll(r, ws))
    decreases |ws|
  {
    hide R.Window, R.Put, R.Gap;
    if ws == [] {
    } else if r.overflown {
      PutAllFrozen(r, ws);
    } else {
      var q := R.Put(r, ws[0]);
      R.PutEffect(r, ws[0]);
      RoomShrinks(r, ws[0]);
      PutAllQueues(q, ws[1..]);
      assert !q.overflown ==> [ws[0]] + ws[1..][..Min(|ws| - 1, Room(q))] == ws[..Min(|ws|, Room(r))];
    }
  }

  lemma RoomShrinks(r: R.Ring<Write>, w: Write)
    requires R.Valid(r) && !r.overflown
    ensures R.Put(r, w).overflown <==> Room(r) == 0
    ensures Room(R.Put(r, w)) == if Room(r) == 0 then 0 else Room(r) - 1
  {
    R.PutEffect(r, w);
  }

  lemma SegmentQueued(r: R.Ring<Write>, sector: nat, len: nat, pageOffset: nat, page: seq<byte>)
    requires R.Valid(r) && |page| == PAGE && pageOffset <= PAGE
    ensures var ws := Captured(sector % U32, len, pageOffset, page);
            && Queued(r, ws, PutAll(r, ws))
            && (0 < len && pageOffset + len <= PAGE && sector < U32 ==>
                  Queued(r, [Write(SECTOR * sector, page[pageOffset..pageOffset + len])], PutAll(r, ws)))
  {
    hide Queued, PutAll;
    PutAllQueues(r, Captured(sector % U32, len, pageOffset, page));
    if len > 0 {
      SegmentCaptured(sector, len, pageOffset, page);
    }
  }

  /** One round of the capture loop. */
  lemma CaptureNext(r: R.Ring<Write>, sector: u32, len: nat, pageOffset: nat, page: seq<byte>)
    requires R.Valid(r) && |page| == PAGE && pageOffset <= PAGE && len > 0
    ensures var size := Min(len, PAGE - pageOffset);
            PutAll(r, Captured(sector, len, pageOffset, page))
            == PutAll(R.Put(r, Write(SECTOR * sector, page[pageOffset..pageOffset + size])),
                      Captured((sector + 1) % U32, len - size, 0, page))
  {
    hide R.Put;
    var size := Min(len, PAGE - pageOffset);
    assert Captured(sector, len, pageOffset, page)[1..] == Captured((sector + 1) % U32, len - size, 0, page);
  }

  lemma CaptureEnds(r: R.Ring<Write>, sector: u32, pageOffset: nat, page: seq<byte>)
    requires R.Valid(r) && |page| == PAGE && pageOffset <= PAGE
    ensures PutAll(r, Captured(sector, 0, pageOffset, page)) == r
  {
  }

  /** `bdr_put_write_to_buffer`: what is queued of a segment, in order, and that giving up after a refused
      put loses nothing that would have been accepted. The sector is cut to 32 bits. A segment in one
      page, with a sector number of 32 bits, is queued whole or not at all. */
  method PutWriteToBuffer(rb: RingBuffer, sector: nat, bvLen: u32, bvOffset: nat, page: seq<byte>)
    requires rb.Valid() && |page| == PAGE && bvOffset <= PAGE
    modifies rb, rb.slots
    ensures rb.Valid()
    ensures Queued(old(rb.Model()), Captured(sector % U32, bvLen, bvOffset, page), rb.Model())
    ensures 0 < bvLen && bvOffset + bvLen <= PAGE && sector < U32 ==>
              Queued(old(rb.Model()), [Write(SECTOR * sector, page[bvOffset..bvOffset + bvLen])], rb.Model())
  {
    hide Queued, Captured, PutAll, R.Put, R.Window, R.Gap;
    var segLen: u32, segOff: nat, segSec: u32 := bvLen, bvOffset, sector % U32;
    SegmentQueued(rb.Model(), sector, bvLen, bvOffset, page);
    while segLen > 0
      invariant rb.Valid() && segOff <= PAGE
      invariant PutAll(rb.Model(), Captured(segSec, segLen, segOff, page))
             == PutAll(old(rb.Model()), Captured(sector % U32, bvLen, bvOffset, page))
      decreases segLen, segOff
    {
      CaptureNext(rb.Model(), segSec, segLen, segOff, page);
      var size := Min(segLen, PAGE - segOff);
      var ok := rb.Put(segSec, size, page, segOff, segLen);
      if !ok {
        PutAllFrozen(rb.Model(), Captured((segSec + 1) % U32, segLen - size, 0, page));
        return;
      }
      segLen, segOff, segSec := segLen - size, 0, (segSec + 1) % U32;
    }
    CaptureEnds(rb.Model(), segSec, segOff, page);
  }

  lemma CapturedFirst(sector: u32, len: nat, pageOffset: nat, page: seq<byte>)
    requires |page| == PAGE && pageOffset < PAGE
    ensures len == 0 ==> Captured(sector, len, pageOffset, page) == []
    ensures len > 0 ==>
              var size := Min(len, PAGE - pageOffset);
              Captured(sector, len, pageOffset, page)
              == [Write(SECTOR * sector, page[pageOffset..pageOffset + size])] + Captured((sector + 1) % U32, len - size, 0, page)
  {
  }

  /** The bytes of a segment before put `k`, and where in its page put `k` begins. */
  function BytesBefore(pageOffset: nat, k: nat): (n: nat)
    requires pageOffset < PAGE
  {
    if k == 0 then 0 else (PAGE - pageOffset) + (k - 1) * PAGE
  }

  function PageStart(pageOffset: nat, k: nat): nat {
    if k == 0 then pageOffset else 0
  }

  lemma BytesBeforeNext(pageOffset: nat, k: nat)
    requires pageOffset < PAGE && k > 0
    ensures BytesBefore(pageOffset, k) == (PAGE - pageOffset) + BytesBefore(0, k - 1)
    ensures PageStart(pageOffset, k) == PageStart(0, k - 1) == 0
  {
  }

  /** What a segment that runs past its page is captured as: put `k` is for the `k`-th sector from its own,
      the first takes the rest of the page and every other begins at its start. */
  lemma {:induction false} CapturedAt(sector: u32, len: nat, pageOffset: nat, page: seq<byte>, k: nat)
    requires |page| == PAGE && pageOffset < PAGE && k < |Captured(sector, len, pageOffset, page)|
    ensures var done, from := BytesBefore(pageOffset, k), PageStart(pageOffset, k);
            && done < len && from < PAGE
            && Captured(sector, len, pageOffset, page)[k]
               == Write(SECTOR * ((sector + k) % U32), page[from..from + Min(len - done, PAGE - from)])
    decreases k
  {
    hide Captured;
    CapturedFirst(sector, len, pageOffset, page);
    if k == 0 {
    } else {
      hide BytesBefore, PageStart;
      SectorAfter(sector, k);
      BytesBeforeNext(pageOffset, k);
      CapturedAt((sector + 1) % U32, len - Min(len, PAGE - pageOffset), 0, page, k - 1);
      assert len - Min(len, PAGE - pageOffset) > 0;
    }
  }

  lemma SectorAfter(sector: u32, k: nat)
    requires k > 0
    ensures ((sector + 1) % U32 + (k - 1)) % U32 == (sector + k) % U32
  {
    if sector + 1 == U32 {
      assert (sector + k) == U32 + (k - 1);
    }
  }

  /** A segment is captured by one put, for its own sector and all of its bytes, exactly when it
      lies in one page and its sector number fits 32 bits. */
  lemma SegmentCaptured(sector: nat, len: nat, pageOffset: nat, page: seq<byte>)
    requires |page| == PAGE && pageOffset <= PAGE && len > 0
    ensures var ws := Captured(sector % U32, len, pageOffset, page);
            && ((|ws| == 1 && ws[0].offset == SECTOR * sector && |ws[0].data| == len)
                <==> pageOffset + len <= PAGE && sector < U32)
            && (pageOffset + len <= PAGE && sector < U32 ==>
                  ws == [Write(SECTOR * sector, page[pageOffset..pageOffset + len])])
  {
    var size := Min(len, PAGE - pageOffset);
    var rest := Captured((sector % U32 + 1) % U32, len - size, 0, page);
    assert Captured(sector % U32, len, pageOffset, page)[1..] == rest;
    assert len > size ==> |rest| > 0;
    assert sector >= U32 ==> sector % U32 < sector;
  }

  // --- from the slot to the replica --------------------------------------------------------------------

  /** The payload of the packet for a slot: the whole page goes along. */
  function Payload(s: Slot): (e: Entry)
    requires SlotOk(s)
    ensures e.size <= |e.data|
  {
    Entry(SECTOR * s.sector, s.size, s.data)
  }

  const WRITE_INFO_SIZE: nat := 4108

  /** The live path and the path through the journal write the same bytes to the same place, and
      nothing left over in the slot reaches the replica by either. */
  lemma PathsAgree(s: Slot)
    requires SlotOk(s)
    ensures ToWrite(Payload(s)) == Meaning(s)
    ensures DecodeEntry(EncodeEntry(Payload(s), WRITE_INFO_SIZE)) == Holds(Kept(Payload(s)))
    ensures |Kept(Payload(s)).data| == s.size && ToWrite(Kept(Payload(s))) == Meaning(s)
  {
    EntryRoundTrip(Payload(s), WRITE_INFO_SIZE);
    KeptWrite(Payload(s));
  }
}
