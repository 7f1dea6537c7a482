/** The server as an object: its state, its journal on disk and the replica. */
module Server {
  import opened Images
  import opened Codec
  import opened JournalDisk
  import opened Journal
  import opened ServerCore
  import opened ReplayOrder
  import Rec = Recovery

  /** The packets as they arrive, with the payload that the client sent. */
  datatype Message =
    | MsgStartHashing
    | MsgBufferWrite(info: Entry)
    | MsgCorrectBlock(info: Entry)
    | MsgHashingCompleted
    | MsgStartReplication
    | MsgReplicationBlock(info: Entry)
    | MsgReplicationCompleted

  /** The positions recorded with a packet; they play no part in what the server does. */
  datatype Note = Note(at: nat, upTo: nat, stale: bool)

  function PacketOf(m: Message, note: Note): Packet
    requires Whole(m)
  {
    match m
    case MsgStartHashing => CmdStartHashing(note.at)
    case MsgBufferWrite(e) => BufferWrite(ToWrite(e))
    case MsgCorrectBlock(e) => CorrectBlock(ToWrite(e))
    case MsgHashingCompleted => HashingCompleted(note.stale)
    case MsgStartReplication => StartReplication
    case MsgReplicationBlock(e) => ReplicationBlock(Write(e.offset, e.data))
    case MsgReplicationCompleted => ReplicationCompleted(note.at, note.upTo)
  }

  /** Payloads carry at least the bytes that their size announces; the handlers slice them so. */
  predicate Whole(m: Message) {
    (m.MsgBufferWrite? || m.MsgCorrectBlock?) ==> m.info.size <= |m.info.data|
  }

  class Server {
    var state: Mode
    var replica: Image               // the replica as the server sees it
    var stable: Image                // what of it would survive a crash
    const journal: Journal
    ghost var trace: seq<Devices>    // the devices after each operation of a replay
    ghost var synced: bool
    ghost var pos: nat
    ghost var from: nat
    ghost var goal: Goal
    ghost var skip: Skip

    constructor (j: Journal, target: Image)
      requires j.Valid() && !j.cleared && j.writes == j.blocks == []
      ensures Valid() && journal == j && replica == stable == target && state == Writing && !synced
    {
      journal, replica, stable, state, trace := j, target, target, Writing, [];
      synced, pos, from, goal, skip := false, 0, 0, NoGoal, NoSkip;
    }

    ghost predicate Valid()
      reads this, journal
    {
      && journal.Valid()
      && (!journal.cleared ==> journal.writes == journal.blocks == [])
      && (state == Hashing ==> journal.cleared && journal.HeaderOnDisk() && !IsValid(journal.header))
    }

    ghost function Caps(): Caps
      reads journal
    {
      ServerCore.Caps(journal.header.blockCount, journal.header.writeCount)
    }

    ghost function Core(): Core
      requires Valid()
      reads this, journal
    {
      ServerCore.Core(state, replica, Writes(journal.blocks), Writes(journal.writes), synced, pos, from, goal, skip)
    }

    ghost function Now(): Devices
      reads this, journal
    {
      Devices(journal.stable, journal.disk, stable, replica)
    }

    method WriteReplica(w: Write)
      modifies `replica, `trace
      ensures replica == WriteAt(old(replica), w) && trace == old(trace) + [Now()]
      ensures Overwritten(old(replica), w.offset, w.data, replica)
    {
      WriteOverwrites(replica, w);
      replica := WriteAt(replica, w);
      trace := trace + [Now()];
    }

    method SyncReplica()
      modifies `stable, `trace
      ensures stable == replica && trace == old(trace) + [Now()]
    {
      stable := replica;
      trace := trace + [Now()];
    }

    /** Copies slots of the journal to the replica until one cannot be read, or all are copied; `syncEach`
        is how the writes are copied, and the blocks are not. */
    method CopySlots(s: Section, n: nat, syncEach: bool) returns (k: nat)
      requires Fits(s, |journal.disk|) && n <= s.count && journal.stable == journal.disk
      modifies `replica, `stable, `trace
      ensures k <= n && (k < n ==> ReadSlot(journal.disk, s, k).Panics?)
      ensures forall i :: 0 <= i < k ==> ReadSlot(journal.disk, s, i).Holds?
      ensures replica == Apply(SlotLog(journal.disk, s, k), old(replica))
      ensures stable == if syncEach && k > 0 then replica else old(stable)
      ensures trace == old(trace) + CopyTrace(journal.disk, old(stable), old(replica), SlotLog(journal.disk, s, k), syncEach)
    {
      hide Apply, SlotLog, Fits, HoldsLog, EmptyFrom, DecodeEntry, CopyTrace, WriteAt, ReadSlot;
      ghost var j, st, d, t := journal.disk, stable, replica, trace;
      NothingCopied(j, s, st, d, syncEach);
      k := 0;
      while k < n
        invariant 0 <= k <= n
        invariant forall i :: 0 <= i < k ==> ReadSlot(j, s, i).Holds?
        invariant replica == Apply(SlotLog(j, s, k), d)
        invariant stable == if syncEach && k > 0 then replica else st
        invariant trace == t + CopyTrace(j, st, d, SlotLog(j, s, k), syncEach)
      {
        match ReadSlot(journal.disk, s, k)
        case Panics => return;
        case Holds(e) =>
          SlotLogNext(j, s, k, st, d, syncEach);
          WriteReplica(Write(e.offset, e.data[..e.size]));
          if syncEach {
            SyncReplica();
          }
          k := k + 1;
      }
    }

    /** `Validate` or `Invalidate`, as an operation of the replay. */
    method SetFlag(valid: bool)
      requires journal.Valid()
      modifies journal, `trace
      ensures journal.Valid() && journal.HeaderOnDisk() && trace == old(trace) + [Now()]
      ensures journal.header == (if valid then SetValid(old(journal.header)) else SetInvalid(old(journal.header)))
      ensures IsValid(journal.header) == valid && journal.header == old(journal.header).(flags := journal.header.flags)
      ensures journal.stable == journal.disk == Rec.PutHeader(old(journal.disk), journal.header)
      ensures |journal.disk| == |old(journal.disk)|
      ensures journal.cleared == old(journal.cleared) && journal.writes == old(journal.writes) && journal.blocks == old(journal.blocks)
      ensures journal.writeOffset == old(journal.writeOffset) && journal.correctOffset == old(journal.correctOffset)
    {
      hide EmptyFrom, HoldsLog, GoodLayout, Fits, WriteAt, EncodeHeader, SetValid, SetInvalid, IsValid;
      OnlyFlags(journal.header);
      if valid {
        journal.Validate();
      } else {
        journal.Invalidate();
      }
      trace := trace + [Now()];
    }

    /** The blocks, a sync, and the writes. */
    method CopyLogs() returns (alive: bool)
      requires journal.Valid() && journal.stable == journal.disk
      modifies `replica, `stable, `trace
      ensures |trace| >= |old(trace)| && trace[..|old(trace)|] == old(trace)
      ensures forall k :: |old(trace)| <= k < |trace| ==> trace[k].jstable == journal.disk
      ensures alive ==>
                var j, d := journal.disk, old(replica);
                var blocks := SlotLog(j, BlockSection(journal.header), journal.correctOffset);
                var writes := SlotLog(j, WriteSection(journal.header), journal.writeOffset);
                var copied := Apply(blocks, d);
                && stable == replica == Apply(writes, copied)
                && trace == old(trace) + CopyTrace(j, old(stable), d, blocks, false) + [Devices(j, j, copied, copied)]
                            + CopyTrace(j, copied, copied, writes, true)
      ensures !alive ==>
                || (exists k: nat :: k < journal.correctOffset && ReadSlot(journal.disk, BlockSection(journal.header), k).Panics?)
                || (exists k: nat :: k < journal.writeOffset && ReadSlot(journal.disk, WriteSection(journal.header), k).Panics?)
    {
      hide Apply, SlotLog, Fits, GoodLayout, HoldsLog, EmptyFrom, ReadSlot, CopyTrace, WriteAt;
      var s, o := WriteSection(journal.header), BlockSection(journal.header);
      ghost var j, st, d := journal.disk, stable, replica;
      var k := CopySlots(o, journal.correctOffset, false);
      FlagInCopy(j, st, d, SlotLog(j, o, k), false);
      if k < journal.correctOffset {
        return false;
      }
      SyncReplica();
      ghost var copied := replica;
      k := CopySlots(s, journal.writeOffset, true);
      FlagInCopy(j, copied, copied, SlotLog(j, s, k), true);
      NothingCopied(j, s, copied, copied, true);
      return k == journal.writeOffset;
    }

    /** `WriteJournalToReplica`. Of a journal that has been reset it replays the entries appended since,
        operation by operation in the order of `ReplayTrace`. One that has not is replayed to the end
        of its sections, whatever they hold, and a slot that cannot be read ends the server with the
        flag set. Either way the replica changes only while the device carries the flag. */
    method WriteJournalToReplica() returns (alive: bool)
      requires Valid()
      modifies `replica, `stable, `trace, journal
      ensures Valid() && journal.cleared == old(journal.cleared)
      ensures journal.writes == old(journal.writes) && journal.blocks == old(journal.blocks)
      ensures Caps() == old(Caps()) && journal.HeaderOnDisk() && IsValid(journal.header) == !alive
      ensures journal.cleared ==> alive && replica == Replay(old(Core()))
      ensures alive ==>
                && stable == replica
                && replica == Apply(SlotLog(journal.disk, WriteSection(journal.header), journal.writeOffset),
                                    Apply(SlotLog(journal.disk, BlockSection(journal.header), journal.correctOffset), old(replica)))
      ensures journal.cleared ==>
                trace == old(trace) + ReplayTrace(Rec.PutHeader(old(journal.disk), SetValid(old(journal.header))), journal.disk,
                                                  old(stable), old(replica), old(Core()).blocks, old(Core()).writes)
      ensures alive ==>
                && journal.header == SetInvalid(SetValid(old(journal.header)))
                && journal.disk == Rec.PutHeader(Rec.PutHeader(old(journal.disk), SetValid(old(journal.header))), journal.header)
      ensures |trace| > |old(trace)| && trace[..|old(trace)|] == old(trace)
      ensures forall k :: |old(trace)| <= k < |trace| && (alive ==> k < |trace| - 1) ==> Rec.FlagOnDisk(trace[k].jstable)
    {
      hide Apply, SlotLog, Fits, GoodLayout, HoldsLog, EmptyFrom, ReadSlot, CopyTrace, WriteAt, EncodeHeader, DecodeHeader,
           Rec.FlagOnDisk, Rec.PutHeader, SetValid, SetInvalid;
      SetFlag(true);
      ghost var j := journal.disk;
      Rec.FlagIs(j, journal.header);
      if journal.cleared {
        JournalReplays(j, journal.header, journal.writes, journal.blocks);
      }
      alive := CopyLogs();
      if alive {
        SetFlag(false);
        SlotsAfterHeader(j, journal.header, journal.disk);
      }
    }

    method HandleStartHashing(ghost at: nat)
      requires Valid()
      modifies this, journal
      ensures Valid() && Caps() == old(Caps())
      ensures Core() == Deliver(Caps(), old(Core()), CmdStartHashing(at))
    {
      hide EmptyFrom, HoldsLog, GoodLayout, Fits, WriteAt, EncodeHeader;
      state := Hashing;
      from, goal := at, NoGoal;
      journal.Reset();
    }

    /** `HandleWritePackets`: the write goes to the replica and is synced. */
    method WriteLive(e: Entry)
      requires Valid() && state == Writing && e.size <= |e.data|
      modifies this
      ensures Valid() && state == Writing && stable == replica
      ensures Overwritten(old(replica), e.offset, e.data[..e.size], replica)
      ensures Core() == Deliver(Caps(), old(Core()), BufferWrite(ToWrite(e)))
    {
      hide Fits, GoodLayout, EmptyFrom, ReadSlot, WriteAt, Overwritten;
      WriteReplica(Write(e.offset, e.data[..e.size]));
      SyncReplica();
      pos := pos + 1;
      synced := synced || (goal.Goal? && goal.upTo <= pos);
    }

    /** To the journal during a scan, to the replica otherwise. Only a write too large for a slot of
        the journal, during a scan, ends the server. */
    method HandleBufferWrite(e: Entry) returns (alive: bool)
      requires Valid() && e.size <= |e.data|
      modifies this, journal
      ensures Valid() && Caps() == old(Caps()) && journal.header == old(journal.header)
      ensures alive <==> !(old(state) == Hashing && |old(journal.writes)| < Caps().writes
                           && ENTRY_HEADER + e.size > journal.header.writeSize)
      ensures Core() == if alive then Deliver(Caps(), old(Core()), BufferWrite(ToWrite(e))) else old(Core())
      ensures journal.writes == if old(state) == Hashing && |old(journal.writes)| < Caps().writes && alive then old(journal.writes) + [Stored(e)]
                               else old(journal.writes)
      ensures if old(state) == Writing then Overwritten(old(replica), e.offset, e.data[..e.size], replica) && stable == replica
              else replica == old(replica)
    {
      KeptIsStored(e);
      hide Fits, GoodLayout, EmptyFrom, ReadSlot, WriteAt, Overwritten, Kept;
      alive := true;
      if state == Hashing {
        KeptWrite(e);
        var r := journal.AppendWrite(e);
        alive := r != TooLarge;
        if r == Full {
          state := JournalOverflow;
        } else if r == Done {
          assert Writes(journal.writes) == Writes(old(journal.writes)) + [ToWrite(e)];
        }
      } else if state == Writing {
        WriteLive(e);
      }
    }

    method HandleCorrectBlock(e: Entry) returns (alive: bool)
      requires Valid() && e.size <= |e.data|
      modifies this, journal
      ensures Valid() && Caps() == old(Caps()) && journal.header == old(journal.header)
      ensures alive <==> !(old(state) == Hashing && |old(journal.blocks)| < Caps().blocks
                           && ENTRY_HEADER + e.size > journal.header.blockSize)
      ensures Core() == if alive then Deliver(Caps(), old(Core()), CorrectBlock(ToWrite(e))) else old(Core())
      ensures journal.blocks == if old(state) == Hashing && |old(journal.blocks)| < Caps().blocks && alive then old(journal.blocks) + [Stored(e)]
                               else old(journal.blocks)
    {
      KeptIsStored(e);
      hide Fits, GoodLayout, EmptyFrom, ReadSlot, WriteAt, Overwritten, Kept;
      alive := true;
      if state == Hashing {
        KeptWrite(e);
        var r := journal.AppendBlock(e);
        alive := r != TooLarge;
        if r == Full {
          state := JournalOverflow;
        } else if r == Done {
          assert Writes(journal.blocks) == Writes(old(journal.blocks)) + [ToWrite(e)];
        }
      }
    }

    /** The record of what the replica holds, after a completion packet. */
    ghost method Record(stale: bool, mode: Mode, before: Image)
      modifies `skip, `pos, `synced, `goal
      ensures skip == if stale then Skip(before, from) else if mode == Writing then old(skip) else NoSkip
      ensures pos == if stale then from else if mode == Hashing then from + |journal.writes| else old(pos)
      ensures synced == (!stale && mode == Hashing) && goal == NoGoal
    {
      skip := if stale then Skip(before, from) else if mode == Writing then skip else NoSkip;
      pos := if stale then from else if mode == Hashing then from + |journal.writes| else pos;
      synced, goal := !stale && mode == Hashing, NoGoal;
    }

    method HandleHashingCompleted(ghost stale: bool) returns (alive: bool)
      requires Valid()
      modifies this, journal
      ensures Valid() && Caps() == old(Caps()) && journal.cleared == old(journal.cleared)
      ensures journal.cleared ==> alive && Core() == Deliver(Caps(), old(Core()), HashingCompleted(stale))
      ensures alive ==>
                && state == Writing && !IsValid(journal.header)
                && replica == Apply(SlotLog(journal.disk, WriteSection(journal.header), journal.writeOffset),
                                    Apply(SlotLog(journal.disk, BlockSection(journal.header), journal.correctOffset),
                                          old(replica)))
    {
      hide Apply, SlotLog, Fits, GoodLayout, HoldsLog, EmptyFrom, ReadSlot, CopyTrace, ReplayTrace, Rec.FlagOnDisk, EncodeHeader;
      ghost var before := replica;
      alive := WriteJournalToReplica();
      if alive {
        Record(stale, state, before);
        state := Writing;
      }
    }

    /** The packets of a full replication. What it wrote is synced when it is complete. */
    method HandleReplication(m: Message, ghost note: Note)
      requires Valid() && (m.MsgStartReplication? || m.MsgReplicationBlock? || m.MsgReplicationCompleted?)
      modifies this
      ensures Valid() && Core() == Deliver(Caps(), old(Core()), PacketOf(m, note))
      ensures m.MsgReplicationBlock? && old(state) == Replicating ==>
                Overwritten(old(replica), m.info.offset, m.info.data, replica)
      ensures m.MsgReplicationBlock? && old(state) != Replicating ==> replica == old(replica)
      ensures m.MsgReplicationCompleted? ==> stable == replica
    {
      hide Fits, GoodLayout, EmptyFrom, ReadSlot, WriteAt, Overwritten;
      match m
      case MsgStartReplication =>
        state, synced, goal, skip := Replicating, false, NoGoal, NoSkip;
      case MsgReplicationBlock(e) =>
        if state == Replicating {
          WriteReplica(Write(e.offset, e.data));
        }
      case MsgReplicationCompleted =>
        SyncReplica();
        state, pos, goal := Writing, note.at, Goal(note.upTo);
        synced, skip := note.upTo <= note.at, NoSkip;
    }

    /** One packet, from dispatch to completion, refines `Deliver` on the bytes of the journal, as long
        as no entry is too large for its slot and no completion precedes the first scan. The payloads go,
        byte by byte, where they say: to the replica, or into the journal. */
    method Handle(m: Message, ghost note: Note) returns (alive: bool)
      requires Valid() && Whole(m)
      modifies this, journal
      ensures Valid() && Caps() == old(Caps())
      ensures (m.MsgHashingCompleted? ==> old(journal.cleared)) && Storable(m, old(journal.header))
              ==> alive && Core() == Deliver(Caps(), old(Core()), PacketOf(m, note))
      ensures m.MsgReplicationBlock? && old(state) == Replicating ==>
                Overwritten(old(replica), m.info.offset, m.info.data, replica)
      ensures m.MsgBufferWrite? && old(state) == Writing ==>
                Overwritten(old(replica), m.info.offset, m.info.data[..m.info.size], replica) && stable == replica
      ensures (m.MsgCorrectBlock? || (m.MsgBufferWrite? && old(state) != Writing)
               || (m.MsgReplicationBlock? && old(state) != Replicating)) ==> replica == old(replica)
      ensures m.MsgBufferWrite? && old(state) == Hashing && Storable(m, old(journal.header)) ==>
                journal.writes == if |old(journal.writes)| < Caps().writes then old(journal.writes) + [Stored(m.info)]
                                  else old(journal.writes)
      ensures m.MsgCorrectBlock? && old(state) == Hashing && Storable(m, old(journal.header)) ==>
                journal.blocks == if |old(journal.blocks)| < Caps().blocks then old(journal.blocks) + [Stored(m.info)]
                                  else old(journal.blocks)
    {
      hide Fits, GoodLayout, HoldsLog, EmptyFrom, ReadSlot, Apply, WriteAt, Overwritten, SlotLog;
      alive := true;
      match m
      case MsgStartHashing => HandleStartHashing(note.at);
      case MsgBufferWrite(e) => alive := HandleBufferWrite(e);
      case MsgCorrectBlock(e) => alive := HandleCorrectBlock(e);
      case MsgHashingCompleted => alive := HandleHashingCompleted(note.stale);
      case _ => HandleReplication(m, note);
    }
  }

  /** What the journal keeps of a payload. */
  function Stored(e: Entry): Entry
    requires e.size <= |e.data|
  {
    Entry(e.offset, e.size, e.data[..e.size])
  }

  lemma KeptIsStored(e: Entry)
    requires e.size <= |e.data|
    ensures Kept(e) == Stored(e)
  {
    assert e.data[..e.size] + Zeros(0) == e.data[..e.size];
  }

  /** The payload fits a slot of its section. */
  predicate Storable(m: Message, h: Header) {
    && (m.MsgBufferWrite? ==> ENTRY_HEADER + m.info.size <= h.writeSize)
    && (m.MsgCorrectBlock? ==> ENTRY_HEADER + m.info.size <= h.blockSize)
  }

  lemma NothingCopied(j: Image, s: Section, stable: Image, d: Image, sync: bool)
    ensures Apply(SlotLog(j, s, 0), d) == d && CopyTrace(j, stable, d, SlotLog(j, s, 0), sync) == []
  {
  }

  lemma SlotLogNext(j: Image, s: Section, k: nat, stable: Image, d: Image, sync: bool)
    requires Fits(s, |j|) && k < s.count && ReadSlot(j, s, k).Holds?
    ensures ReadSlot(j, s, k).entry.size <= |ReadSlot(j, s, k).entry.data|
    ensures var log, w := SlotLog(j, s, k), ToWrite(ReadSlot(j, s, k).entry);
            var before, after := Apply(log, d), WriteAt(Apply(log, d), w);
            && Apply(SlotLog(j, s, k + 1), d) == after
            && CopyTrace(j, stable, d, SlotLog(j, s, k + 1), sync)
               == CopyTrace(j, stable, d, log, sync)
                  + if sync then [Devices(j, j, if k == 0 then stable else before, after), Devices(j, j, after, after)]
                    else [Devices(j, j, stable, after)]
  {
    hide CopyTrace, Apply, WriteAt;
    SlotOrder(s, k, s.count);
    var log, w := SlotLog(j, s, k), ToWrite(ReadSlot(j, s, k).entry);
    assert SlotLog(j, s, k + 1) == log + [w];
    CopyTraceNext(j, stable, d, log, w, sync);
  }

  lemma OnlyFlags(h: Header)
    ensures SetValid(h) == h.(flags := SetValid(h).flags) && SetInvalid(h) == h.(flags := SetInvalid(h).flags)
    ensures IsValid(SetValid(h)) && !IsValid(SetInvalid(h))
  {
  }

  lemma FlagInCopy(j: Image, stable: Image, d: Image, log: seq<Write>, sync: bool)
    ensures forall k :: 0 <= k < |CopyTrace(j, stable, d, log, sync)| ==> CopyTrace(j, stable, d, log, sync)[k].jstable == j
  {
    forall k: nat | k < |CopyTrace(j, stable, d, log, sync)|
      ensures CopyTrace(j, stable, d, log, sync)[k].jstable == j
    {
      CopyKeepsJournal(j, stable, d, log, sync, k);
    }
  }

  lemma JournalReplays(d: Image, h: Header, writes: seq<Entry>, blocks: seq<Entry>)
    requires HoldsLog(d, WriteSection(h), writes) && HoldsLog(d, BlockSection(h), blocks)
    ensures SlotLog(d, WriteSection(h), |writes|) == Writes(writes)
    ensures SlotLog(d, BlockSection(h), |blocks|) == Writes(blocks)
    ensures forall i :: 0 <= i < |writes| ==> ReadSlot(d, WriteSection(h), i).Holds?
    ensures forall i :: 0 <= i < |blocks| ==> ReadSlot(d, BlockSection(h), i).Holds?
  {
    LogReplays(d, WriteSection(h), writes);
    LogReplays(d, BlockSection(h), blocks);
  }

  /** Writing a header leaves what the slots stand for. */
  lemma SlotsAfterHeader(d: Image, h: Header, d': Image)
    requires GoodLayout(h, |d|) && Fits(WriteSection(h), |d|) && Fits(BlockSection(h), |d|)
    requires d' == Rec.PutHeader(d, h)
    ensures forall n: nat :: n <= h.writeCount ==> SlotLog(d', WriteSection(h), n) == SlotLog(d, WriteSection(h), n)
    ensures forall n: nat :: n <= h.blockCount ==> SlotLog(d', BlockSection(h), n) == SlotLog(d, BlockSection(h), n)
  {
    LayoutOrder(h, |d|);
    var w := Write(0, EncodeHeader(h));
    SectionAfterHeader(d, w, WriteSection(h));
    SectionAfterHeader(d, w, BlockSection(h));
    SameSlotLogs(d, d', WriteSection(h));
    SameSlotLogs(d, d', BlockSection(h));
  }

  lemma SameSlotLogs(d: Image, d': Image, s: Section)
    requires Fits(s, |d|) && |d'| == |d| && SameSlots(d, d', s)
    ensures forall n: nat :: n <= s.count ==> SlotLog(d', s, n) == SlotLog(d, s, n)
  {
    forall n: nat, i: nat | i < n <= s.count ensures SlotLog(d', s, n)[i] == SlotLog(d, s, n)[i] {
      SlotOrder(s, i, s.count);
      assert ReadSlot(d', s, i) == ReadSlot(d, s, i);
    }
  }
}
