/** The journal as the server drives it. */
module Journal {
  import opened Images
  import opened Codec
  import opened JournalDisk

  /** An append finds the section full, or serialization panics on an entry larger than a slot. */
  datatype Appended = Done | Full | TooLarge

  /** The class invariant is the log invariant: from each write position on, the slots are empty,
      and once the journal has been reset the slots before it are exactly the entries appended
      since. */
  class Journal {
    var disk: Image                  // the device as the server sees it
    var stable: Image                // what of it would survive a crash: the device at the last sync
    var header: Header
    var writeOffset: nat
    var correctOffset: nat

    ghost var cleared: bool          // the journal has been reset since it was created
    ghost var writes: seq<Entry>     // buffered writes appended since the last reset
    ghost var blocks: seq<Entry>     // correct blocks appended since the last reset

    ghost predicate Shape()
      reads this
    {
      && header.magic == MAGIC
      && |disk| >= HEADER_SIZE && |stable| == |disk|
      && GoodLayout(header, |disk|)
      && Fits(WriteSection(header), |disk|) && Fits(BlockSection(header), |disk|)
      && writeOffset <= header.writeCount && correctOffset <= header.blockCount
    }

    ghost predicate Valid()
      reads this
    {
      && Shape()
      && EmptyFrom(disk, WriteSection(header), writeOffset)
      && EmptyFrom(disk, BlockSection(header), correctOffset)
      && (cleared ==>
            && stable[..HEADER_SIZE] == disk[..HEADER_SIZE]
            && (writes != [] || blocks != [] ==> stable == disk)
            && writeOffset == |writes| && HoldsLog(disk, WriteSection(header), writes)
            && correctOffset == |blocks| && HoldsLog(disk, BlockSection(header), blocks))
    }

    ghost predicate HeaderOnDisk()
      reads this
    {
      |disk| >= HEADER_SIZE && disk[..HEADER_SIZE] == EncodeHeader(header)
    }

    constructor (d: Image, h: Header)
      ensures disk == stable == d && header == h && writeOffset == h.writeCount && correctOffset == h.blockCount
      ensures !cleared
    {
      disk, stable, header := d, d, h;
      writeOffset, correctOffset := h.writeCount, h.blockCount;
      cleared, writes, blocks := false, [], [];
    }

    /** `NewJournal`: nothing is cleared, and both positions are at the end of their section, so
        that the first reset will clear all of it. */
    static method NewJournal(d: Image, section: u64, writeSize: u64, blockSize: u64) returns (j: Journal?)
      requires |d| < U64
      ensures j == null <==> section == 0 || writeSize == 0 || blockSize == 0 || (|d| - HEADER_SIZE) % U64 < section
      ensures j != null ==>
                && fresh(j) && j.disk == d
                && var h, rest := j.header, ((|d| - HEADER_SIZE) % U64) - section;
                && h.magic == MAGIC && h.flags == 0
                && h.writeSize == writeSize && h.writeStart == HEADER_SIZE
                && h.writeCount * writeSize <= section < (h.writeCount + 1) * writeSize
                && h.blockSize == blockSize && h.blockStart == (HEADER_SIZE + section) % U64
                && h.blockCount * blockSize <= rest < (h.blockCount + 1) * blockSize
                && j.writeOffset == h.writeCount && j.correctOffset == h.blockCount
      ensures j != null && |d| >= HEADER_SIZE && writeSize >= ENTRY_HEADER && blockSize >= ENTRY_HEADER
              ==> j.Valid() && !j.cleared
    {
      hide NewHeader, GoodLayout, Fits;
      HeaderIs(|d|, section, writeSize, blockSize);
      j := null;
      match NewHeader(|d|, section, writeSize, blockSize)
      case ErrInvalidSize => return;
      case Ok(h) =>
        if |d| >= HEADER_SIZE && writeSize >= ENTRY_HEADER && blockSize >= ENTRY_HEADER {
          CreatedFits(|d|, section, writeSize, blockSize);
        }
        j := new Journal(d, h);
    }

    method WriteHeader()
      requires |disk| >= HEADER_SIZE
      modifies `disk, `stable
      ensures disk == stable == WriteAt(old(disk), Write(0, EncodeHeader(header))) && HeaderOnDisk()
    {
      disk := WriteAt(disk, Write(0, EncodeHeader(header)));
      stable := disk;
      WriteReadsBack(old(disk), Write(0, EncodeHeader(header)));
    }

    /** Shared by `Validate` and `Invalidate`: only the flag changes, in memory and on disk. */
    method SetFlags(h: Header)
      requires Valid() && (h == SetValid(header) || h == SetInvalid(header))
      modifies `disk, `stable, `header
      ensures Valid() && HeaderOnDisk() && |disk| == |old(disk)| && header == h
      ensures disk == stable == WriteAt(old(disk), Write(0, EncodeHeader(h)))
    {
      hide HoldsLog, EncodeHeader;
      ghost var w := Write(0, EncodeHeader(h));
      LayoutOrder(header, |disk|);
      SectionAfterHeader(disk, w, WriteSection(header));
      SectionAfterHeader(disk, w, BlockSection(header));
      header := h;
      WriteHeader();
      if cleared {
        LogFrame(old(disk), disk, WriteSection(header), writes);
        LogFrame(old(disk), disk, BlockSection(header), blocks);
      }
    }

    method Validate()
      requires Valid()
      modifies `disk, `stable, `header
      ensures stable == disk == WriteAt(old(disk), Write(0, EncodeHeader(header)))
      ensures Valid() && HeaderOnDisk() && |disk| == |old(disk)| && header == SetValid(old(header)) && IsValid(header)
    {
      hide EmptyFrom, HoldsLog, GoodLayout, Fits, WriteAt, EncodeHeader, SetValid, IsValid;
      FlagSet(header);
      SetFlags(SetValid(header));
    }

    method Invalidate()
      requires Valid()
      modifies `disk, `stable, `header
      ensures stable == disk == WriteAt(old(disk), Write(0, EncodeHeader(header)))
      ensures Valid() && HeaderOnDisk() && |disk| == |old(disk)| && header == SetInvalid(old(header)) && !IsValid(header)
    {
      hide EmptyFrom, HoldsLog, GoodLayout, Fits, WriteAt, EncodeHeader, SetInvalid, IsValid;
      FlagSet(header);
      SetFlags(SetInvalid(header));
    }

    /** `ClearWriteSectionTo` and `ClearCorrectBlockSectionTo` on the section they name. Nothing is
        synced. */
    method ClearSectionTo(s: Section, n: nat) returns (ok: bool)
      requires Fits(s, |disk|)
      modifies `disk
      ensures ok <==> n <= s.count
      ensures disk == if ok then Cleared(old(disk), s, n) else old(disk)
    {
      if n > s.count {
        return false;
      }
      var i := 0;
      while i < n
        invariant 0 <= i <= n
        invariant disk == Cleared(old(disk), s, i)
      {
        SlotStartIs(s, i);
        disk := WriteAt(disk, Write(s.start + i * s.slot, Zeros(s.slot)));
        i := i + 1;
      }
      return true;
    }

    /** `ResetTo` with the journal's own positions, as `HashDisk` calls it: whatever the device
        held before the journal was created, both logs are empty afterwards. Only the header is
        sure to have reached the device. */
    method Reset()
      requires Valid()
      modifies this
      ensures Valid() && HeaderOnDisk() && header == SetInvalid(old(header)) && |disk| == |old(disk)|
      ensures cleared && writes == [] && blocks == []
      ensures stable == WriteAt(old(disk), Write(0, EncodeHeader(header)))
    {
      hide ReadSlot, EncodeHeader;
      Invalidate();
      var s, o := WriteSection(header), BlockSection(header);
      LayoutOrder(header, |disk|);
      ghost var d0 := disk;
      var ok := ClearSectionTo(s, writeOffset);
      ghost var d1 := disk;
      AllCleared(d0, s, writeOffset);
      ClearedFrame(d0, s, writeOffset);
      OtherSection(d0, d1, s, o);
      ok := ClearSectionTo(o, correctOffset);
      AllCleared(d1, o, correctOffset);
      ClearedFrame(d1, o, correctOffset);
      OtherSection(d1, disk, o, s);
      writeOffset, correctOffset := 0, 0;
      HeaderKept(d0, d1, header);
      HeaderKept(d1, disk, header);
      cleared, writes, blocks := true, [], [];
    }

    /** `WriteBufferWriteToJournal`: the entry goes to the next slot, or the section is full and
        nothing changes. */
    method AppendWrite(e: Entry) returns (r: Appended)
      requires Valid() && cleared && (e.size <= |e.data| || ENTRY_HEADER + e.size <= header.writeSize)
      modifies `disk, `stable, `writeOffset, `writes
      ensures Valid() && |disk| == |old(disk)|
      ensures old(HeaderOnDisk()) ==> HeaderOnDisk()
      ensures r == if |old(writes)| >= header.writeCount then Full
                   else if ENTRY_HEADER + e.size > header.writeSize then TooLarge else Done
      ensures writes == if r == Done then old(writes) + [Kept(e)] else old(writes)
      ensures if r == Done then stable == disk else stable == old(stable) && disk == old(disk)
    {
      var s, o := WriteSection(header), BlockSection(header);
      if writeOffset >= header.writeCount {
        return Full;
      }
      if ENTRY_HEADER + e.size > header.writeSize {
        return TooLarge;
      }
      LayoutOrder(header, |disk|);
      SlotStartIs(s, writeOffset);
      AppendToLog(disk, s, writes, e);
      WriteSlotFrame(disk, s, writeOffset, e);
      disk := WriteAt(disk, Write(s.start + writeOffset * s.slot, EncodeEntry(e, s.slot)));
      stable := disk;
      assert disk == WriteSlot(old(disk), s, writeOffset, e);
      OtherSection(old(disk), disk, s, o);
      LogFrame(old(disk), disk, o, blocks);
      writeOffset := writeOffset + 1;
      writes := writes + [Kept(e)];
      return Done;
    }

    /** `WriteCorrectBlockToJournal`. */
    method AppendBlock(e: Entry) returns (r: Appended)
      requires Valid() && cleared && (e.size <= |e.data| || ENTRY_HEADER + e.size <= header.blockSize)
      modifies `disk, `stable, `correctOffset, `blocks
      ensures Valid() && |disk| == |old(disk)|
      ensures old(HeaderOnDisk()) ==> HeaderOnDisk()
      ensures r == if |old(blocks)| >= header.blockCount then Full
                   else if ENTRY_HEADER + e.size > header.blockSize then TooLarge else Done
      ensures blocks == if r == Done then old(blocks) + [Kept(e)] else old(blocks)
      ensures if r == Done then stable == disk else stable == old(stable) && disk == old(disk)
    {
      var s, o := BlockSection(header), WriteSection(header);
      if correctOffset >= header.blockCount {
        return Full;
      }
      if ENTRY_HEADER + e.size > header.blockSize {
        return TooLarge;
      }
      LayoutOrder(header, |disk|);
      SlotStartIs(s, correctOffset);
      AppendToLog(disk, s, blocks, e);
      WriteSlotFrame(disk, s, correctOffset, e);
      disk := WriteAt(disk, Write(s.start + correctOffset * s.slot, EncodeEntry(e, s.slot)));
      stable := disk;
      assert disk == WriteSlot(old(disk), s, correctOffset, e);
      OtherSection(old(disk), disk, s, o);
      LogFrame(old(disk), disk, o, writes);
      correctOffset := correctOffset + 1;
      blocks := blocks + [Kept(e)];
      return Done;
    }
  }

  /** Clearing up to a position from which all slots are empty leaves an empty log. */
  lemma AllCleared(d: Image, s: Section, n: nat)
    requires Fits(s, |d|) && n <= s.count && EmptyFrom(d, s, n)
    ensures HoldsLog(Cleared(d, s, n), s, [])
  {
    forall i | 0 <= i < s.count ensures ReadSlot(Cleared(d, s, n), s, i) == Holds(EMPTY) {
      ClearedEffect(d, s, n, i);
    }
  }

  lemma HeaderKept(d: Image, d': Image, h: Header)
    requires |d| >= HEADER_SIZE && GoodLayout(h, |d|)
    requires SameOutside(WriteSection(h), d, d') || SameOutside(BlockSection(h), d, d')
    ensures d'[..HEADER_SIZE] == d[..HEADER_SIZE]
  {
    LayoutOrder(h, |d|);
  }

  /** `FindFirstAvailableBufferWrite` and `FindFirstAvailableCorrectBlock`. */
  method FindFirstAvailable(d: Image, s: Section) returns (r: Search)
    ensures r == FirstFree(d, s, 0)
  {
    var i := 0;
    while i < s.count
      invariant 0 <= i <= s.count
      invariant FirstFree(d, s, 0) == FirstFree(d, s, i)
    {
      if SlotStart(s, i) + s.slot > |d| {
        return IoFailure;
      }
      if s.slot < ENTRY_HEADER {
        return Panicked;
      }
      match DecodeEntry(d[SlotStart(s, i)..SlotStart(s, i) + s.slot])
      case Panics =>
        return Panicked;
      case Holds(e) =>
        if e.size == 0 {
          return Free(i);
        }
        i := i + 1;
    }
    return NoFreeSlot;
  }
}
