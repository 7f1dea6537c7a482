/** What the server does with the journal device when it starts. */
module Restart {
  import opened Images
  import opened Codec
  import opened JournalDisk
  import opened Journal
  import Rec = Recovery

  /** `OpenJournal`. */
  method OpenJournal(d: Image) returns (r: Opened)
    ensures r == Open(d)
  {
    if |d| < HEADER_SIZE {
      return OpenFailed;
    }
    var h := DecodeHeader(d[..HEADER_SIZE]);
    if h.magic != MAGIC {
      return OpenFailed;
    }
    var w := FindFirstAvailable(d, WriteSection(h));
    if !w.Free? {
      return OpenFailed;
    }
    var b := FindFirstAvailable(d, BlockSection(h));
    if !b.Free? {
      return OpenFailed;
    }
    return Opened.Journal(h, w.index, b.index);
  }

  /** A loop of `CopyJournalToReplica`, over the slots before the first free one. */
  method CopySection(d: Image, s: Section, n: nat, target: Image) returns (replica: Image)
    requires FirstFree(d, s, 0) == Free(n)
    ensures replica == Apply(SlotLog(d, s, n), target)
  {
    hide FirstFree, DecodeEntry, WriteAt;
    replica := target;
    var i := 0;
    while i < n
      invariant 0 <= i <= n && replica == Apply(SlotLog(d, s, i), target)
    {
      ScanIsFirst(d, s, 0, i);
      SlotStartIs(s, i);
      var start := s.start + i * s.slot;
      var e := DecodeEntry(d[start..start + s.slot]).entry;
      assert SlotLog(d, s, i + 1)[..i] == SlotLog(d, s, i);
      replica := WriteAt(replica, Write(e.offset, e.data[..e.size]));
      i := i + 1;
    }
  }

  datatype Outcome = Corrupted | NotValid | Copied

  /** `CheckJournal`: a journal that does not open or is not valid is left alone, and so is the replica;
      a valid one is copied, blocks first, and invalidated. */
  method CheckJournal(d: Image, target: Image) returns (outcome: Outcome, disk: Image, replica: Image)
    ensures outcome == match Open(d) case OpenFailed => Corrupted case Journal(h, _, _) => if IsValid(h) then Copied else NotValid
    ensures outcome != Copied ==> disk == d && replica == target
    ensures outcome == Copied ==>
              var h, w, b := Open(d).header, Open(d).writeOffset, Open(d).correctOffset;
              && disk == Rec.PutHeader(d, SetInvalid(h))
              && replica == Replayed(SlotLog(d, BlockSection(h), b), SlotLog(d, WriteSection(h), w), target)
  {
    hide FirstFree, SlotLog, Apply;
    disk, replica := d, target;
    var jrn := OpenJournal(d);
    match jrn
    case OpenFailed => outcome := Corrupted;
    case Journal(h, w, b) =>
      if !IsValid(h) {
        outcome := NotValid;
      } else {
        OpensOnlyWithMagic(d);
        replica := CopySection(d, BlockSection(h), b, target);
        replica := CopySection(d, WriteSection(h), w, replica);
        disk := Rec.PutHeader(d, SetInvalid(h));
        outcome := Copied;
      }
  }

  /** For the journal of a scan, with the flag, that is the replay of its entries. */
  lemma RestartCopies(x: Rec.Scan, d: Image, h: Header)
    requires Rec.Replayable(x) && Rec.OnDisk(x, d, h) && h == x.header.(flags := h.flags)
    ensures Open(d) == Opened.Journal(h, |x.writes|, |x.blocks|)
    ensures SlotLog(d, BlockSection(h), |x.blocks|) == Writes(x.blocks)
    ensures SlotLog(d, WriteSection(h), |x.writes|) == Writes(x.writes)
  {
    hide SlotLog, Open, HoldsLog;
    Rec.Reopens(x, d, h);
    LogReplays(d, BlockSection(h), x.blocks);
    LogReplays(d, WriteSection(h), x.writes);
  }
}
