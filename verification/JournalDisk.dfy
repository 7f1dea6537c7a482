/** The journal device: a header, a section of slots for buffered writes and a section of slots for
    correct blocks. What a slot write or a cleared prefix changes and leaves alone, and what
    opening the journal recovers from the bytes. */
module JournalDisk {
  import opened Images
  import opened Codec

  datatype Section = Section(start: nat, slot: nat, count: nat)

  function WriteSection(h: Header): Section {
    Section(h.writeStart, h.writeSize, h.writeCount)
  }

  function BlockSection(h: Header): Section {
    Section(h.blockStart, h.blockSize, h.blockCount)
  }

  /** Where slot `i` starts: the slots follow one another. */
  function SlotStart(s: Section, i: nat): nat {
    if i == 0 then s.start else SlotStart(s, i - 1) + s.slot
  }

  /** The formula that the code uses. */
  lemma {:induction false} SlotStartIs(s: Section, i: nat)
    ensures SlotStart(s, i) == s.start + i * s.slot
  {
    if i == 0 {
    } else {
      SlotStartIs(s, i - 1);
      assert i * s.slot == (i - 1) * s.slot + s.slot;
    }
  }

  /** The section lies inside a device of `size` bytes and its slots can hold an entry header. */
  predicate Fits(s: Section, size: nat) {
    s.slot >= ENTRY_HEADER && SlotStart(s, s.count) <= size
  }

  /** Header first, then the write section, then the block section. */
  predicate GoodLayout(h: Header, size: nat) {
    && HEADER_SIZE <= h.writeStart
    && SlotStart(WriteSection(h), h.writeCount) <= h.blockStart
    && SlotStart(BlockSection(h), h.blockCount) <= size
  }

  lemma {:induction false} SlotOrder(s: Section, i: nat, j: nat)
    requires i < j
    ensures s.start <= SlotStart(s, i) && SlotStart(s, i) + s.slot <= SlotStart(s, j)
    decreases j
  {
    if i + 1 < j {
      SlotOrder(s, i, j - 1);
    } else if i > 0 {
      SlotOrder(s, i - 1, i);
    }
  }

  // --- creating a journal -------------------------------------------------------------------------

  /** Subtraction of unsigned 64-bit numbers. */
  function Sub64(a: u64, b: u64): u64 {
    if a >= b then a - b else a - b + U64
  }

  /** How many whole slots fit. */
  function Slots(bytes: u64, slot: u64): (n: u64)
    requires slot > 0
    ensures n * slot <= bytes < n * slot + slot
  {
    bytes / slot
  }

  datatype Created = Ok(header: Header) | ErrInvalidSize

  /** The header that `NewJournal` lays out on a device of `size` bytes. */
  function NewHeader(size: u64, section: u64, writeSize: u64, blockSize: u64): Created {
    if section > Sub64(size, HEADER_SIZE) || section == 0 then ErrInvalidSize
    else if blockSize == 0 || writeSize == 0 then ErrInvalidSize
    else
      var rest := Sub64(Sub64(size, HEADER_SIZE), section);
      Ok(Header(MAGIC,
                writeSize, Slots(section, writeSize), HEADER_SIZE,
                blockSize, Slots(rest, blockSize), (HEADER_SIZE + section) % U64,
                0))
  }

  /** The sizes that are rejected, and the header for the others. */
  lemma HeaderIs(size: u64, section: u64, writeSize: u64, blockSize: u64)
    ensures NewHeader(size, section, writeSize, blockSize).ErrInvalidSize? <==>
              section == 0 || writeSize == 0 || blockSize == 0 || (size - HEADER_SIZE) % U64 < section
    ensures NewHeader(size, section, writeSize, blockSize).Ok? ==>
              var h, rest := NewHeader(size, section, writeSize, blockSize).header, ((size - HEADER_SIZE) % U64) - section;
              && h.magic == MAGIC && h.flags == 0
              && h.writeSize == writeSize && h.writeStart == HEADER_SIZE
              && h.writeCount * writeSize <= section < (h.writeCount + 1) * writeSize
              && h.blockSize == blockSize && h.blockStart == (HEADER_SIZE + section) % U64
              && h.blockCount * blockSize <= rest < (h.blockCount + 1) * blockSize
  {
    hide Slots;
    WrapsAround(size);
  }

  lemma WrapsAround(size: u64)
    ensures Sub64(size, HEADER_SIZE) == (size - HEADER_SIZE) % U64
  {
  }

  /** A section of as many slots as fit in its bytes ends within them, and one more slot would not. */
  lemma SectionSize(start: nat, slot: u64, bytes: u64)
    requires slot > 0
    ensures var end := SlotStart(Section(start, slot, Slots(bytes, slot)), Slots(bytes, slot));
            end <= start + bytes < end + slot
  {
    hide Slots;
    SlotStartIs(Section(start, slot, Slots(bytes, slot)), Slots(bytes, slot));
  }

  /** The header comes before both sections, which do not overlap. */
  lemma LayoutOrder(h: Header, size: nat)
    requires GoodLayout(h, size)
    ensures HEADER_SIZE <= h.writeStart <= h.blockStart <= size
    ensures SectionsApart(WriteSection(h), BlockSection(h))
  {
    SectionEnd(WriteSection(h));
    SectionEnd(BlockSection(h));
  }

  lemma SectionEnd(s: Section)
    ensures s.start <= SlotStart(s, s.count)
  {
    if s.count > 0 {
      SlotOrder(s, 0, s.count);
    }
  }

  /** The device can hold a header: the layout fits, and no section has room for another slot. */
  lemma LayoutFits(size: u64, section: u64, writeSize: u64, blockSize: u64)
    requires NewHeader(size, section, writeSize, blockSize).Ok? && size >= HEADER_SIZE
    ensures var h := NewHeader(size, section, writeSize, blockSize).header;
            && GoodLayout(h, size)
            && h.blockStart < SlotStart(WriteSection(h), h.writeCount) + h.writeSize
            && size < SlotStart(BlockSection(h), h.blockCount) + h.blockSize
  {
    hide Slots, SlotStart;
    SectionSize(HEADER_SIZE, writeSize, section);
    SectionSize(HEADER_SIZE + section, blockSize, size - HEADER_SIZE - section);
  }

  /** It cannot: the size check wraps around and accepts what does not fit. */
  lemma LayoutWraps(size: u64, section: u64, writeSize: u64, blockSize: u64)
    requires NewHeader(size, section, writeSize, blockSize).Ok? && size < HEADER_SIZE
    ensures !GoodLayout(NewHeader(size, section, writeSize, blockSize).header, size)
  {
    hide Slots, SlotStart;
    var h := NewHeader(size, section, writeSize, blockSize).header;
    if GoodLayout(h, size) {
      LayoutOrder(h, size);
    }
  }

  /** An accepted layout stays inside the device, with its parts disjoint, exactly when the device
      can hold a header: on a smaller device the size check wraps around and accepts. Then no section
      has room for another slot. */
  lemma LayoutIsGood(size: u64, section: u64, writeSize: u64, blockSize: u64)
    requires NewHeader(size, section, writeSize, blockSize).Ok?
    ensures GoodLayout(NewHeader(size, section, writeSize, blockSize).header, size) <==> size >= HEADER_SIZE
    ensures var h := NewHeader(size, section, writeSize, blockSize).header;
            size >= HEADER_SIZE ==>
              && h.blockStart < SlotStart(WriteSection(h), h.writeCount) + h.writeSize
              && size < SlotStart(BlockSection(h), h.blockCount) + h.blockSize
  {
    hide NewHeader, GoodLayout, SlotStart;
    if size >= HEADER_SIZE {
      LayoutFits(size, section, writeSize, blockSize);
    } else {
      LayoutWraps(size, section, writeSize, blockSize);
    }
  }

  /** With slots that can hold an entry header, both sections can be used. */
  lemma CreatedFits(size: u64, section: u64, writeSize: u64, blockSize: u64)
    requires NewHeader(size, section, writeSize, blockSize).Ok? && size >= HEADER_SIZE
    requires writeSize >= ENTRY_HEADER && blockSize >= ENTRY_HEADER
    ensures var h := NewHeader(size, section, writeSize, blockSize).header;
            && h.magic == MAGIC && GoodLayout(h, size)
            && Fits(WriteSection(h), size) && Fits(BlockSection(h), size)
  {
    hide Slots, SlotStart;
    LayoutFits(size, section, writeSize, blockSize);
    LayoutOrder(NewHeader(size, section, writeSize, blockSize).header, size);
  }

  // --- slots -----------------------------------------------------------------------------------------

  function SlotBytes(d: Image, s: Section, i: nat): (bs: seq<byte>)
    requires Fits(s, |d|) && i < s.count
    ensures |bs| == s.slot
  {
    SlotOrder(s, i, s.count);
    d[SlotStart(s, i)..SlotStart(s, i) + s.slot]
  }

  function ReadSlot(d: Image, s: Section, i: nat): Decoded
    requires Fits(s, |d|) && i < s.count
  {
    DecodeEntry(SlotBytes(d, s, i))
  }

  /** The write that slot `i` of a section stands for. */
  function SlotWrite(d: Image, s: Section, i: nat): Write {
    if s.slot < ENTRY_HEADER || SlotStart(s, i) + s.slot > |d| then Write(0, [])
    else
      match DecodeEntry(d[SlotStart(s, i)..SlotStart(s, i) + s.slot])
      case Holds(e) => ToWrite(e)
      case Panics => Write(0, [])
  }

  /** The writes that the first `n` slots stand for. */
  function SlotLog(d: Image, s: Section, n: nat): (ws: seq<Write>)
    ensures |ws| == n
  {
    seq(n, i requires 0 <= i < n => SlotWrite(d, s, i))
  }

  function WriteSlot(d: Image, s: Section, i: nat, e: Entry): (r: Image)
    requires ENTRY_HEADER + Min(|e.data|, e.size) <= s.slot
    ensures |r| == |d|
  {
    WriteAt(d, Write(SlotStart(s, i), EncodeEntry(e, s.slot)))
  }

  /** The first `n` slots cleared, in order: the bytes of an empty entry are zeros. */
  function Cleared(d: Image, s: Section, n: nat): (r: Image)
    ensures |r| == |d|
  {
    if n == 0 then d else WriteAt(Cleared(d, s, n - 1), Write(SlotStart(s, n - 1), Zeros(s.slot)))
  }

  /** The two regions have no byte in common. */
  predicate Apart(a: nat, n: nat, b: nat, m: nat) {
    a + n <= b || b + m <= a
  }

  lemma WriteApart(d: Image, w: Write, a: nat, n: nat)
    requires a + n <= |d| && Apart(w.offset, |w.data|, a, n)
    ensures WriteAt(d, w)[a..a + n] == d[a..a + n]
  {
  }

  lemma WriteReadsBack(d: Image, w: Write)
    requires w.offset + |w.data| <= |d|
    ensures WriteAt(d, w)[w.offset..w.offset + |w.data|] == w.data
  {
  }

  /** Writing a slot changes no other slot of the section, and what it wrote reads back. */
  lemma WriteSlotEffect(d: Image, s: Section, i: nat, e: Entry, j: nat)
    requires Fits(s, |d|) && i < s.count && j < s.count && ENTRY_HEADER + e.size <= s.slot
    ensures ReadSlot(WriteSlot(d, s, i, e), s, j) == if i == j then Holds(Kept(e)) else ReadSlot(d, s, j)
  {
    SlotOrder(s, i, s.count);
    SlotOrder(s, j, s.count);
    var w := Write(SlotStart(s, i), EncodeEntry(e, s.slot));
    if i == j {
      WriteReadsBack(d, w);
      EntryRoundTrip(e, s.slot);
    } else {
      if i < j { SlotOrder(s, i, j); } else { SlotOrder(s, j, i); }
      WriteApart(d, w, SlotStart(s, j), s.slot);
    }
  }

  /** The images differ at most inside the section. */
  predicate SameOutside(s: Section, d: Image, d': Image) {
    |d'| == |d| && forall i :: 0 <= i < |d| && !(s.start <= i < SlotStart(s, s.count)) ==> d'[i] == d[i]
  }

  /** Writing a slot changes nothing outside its section. */
  lemma WriteSlotFrame(d: Image, s: Section, i: nat, e: Entry)
    requires i < s.count && ENTRY_HEADER + Min(|e.data|, e.size) <= s.slot
    ensures SameOutside(s, d, WriteSlot(d, s, i, e))
  {
    SlotOrder(s, i, s.count);
  }

  /** Clearing a prefix empties exactly its slots and changes nothing else. */
  lemma {:induction false} ClearedEffect(d: Image, s: Section, n: nat, j: nat)
    requires Fits(s, |d|) && n <= s.count && j < s.count
    ensures ReadSlot(Cleared(d, s, n), s, j) == if j < n then Holds(EMPTY) else ReadSlot(d, s, j)
  {
    if n == 0 {
    } else {
      ClearedEffect(d, s, n - 1, j);
      ClearSlot(Cleared(d, s, n - 1), s, n - 1, j);
    }
  }

  lemma ClearSlot(d: Image, s: Section, i: nat, j: nat)
    requires Fits(s, |d|) && i < s.count && j < s.count
    ensures ReadSlot(WriteAt(d, Write(SlotStart(s, i), Zeros(s.slot))), s, j)
            == if i == j then Holds(EMPTY) else ReadSlot(d, s, j)
  {
    EmptySlot(s.slot);
    WriteSlotEffect(d, s, i, EMPTY, j);
    assert Kept(EMPTY) == EMPTY;
  }

  lemma {:induction false} ClearedFrame(d: Image, s: Section, n: nat)
    requires n <= s.count
    ensures SameOutside(s, d, Cleared(d, s, n))
  {
    if n == 0 {
    } else {
      ClearedFrame(d, s, n - 1);
      SlotOrder(s, n - 1, s.count);
    }
  }

  // --- a section as a log -----------------------------------------------------------------------------

  /** Entries that a section can hold and that its scan tells from a free slot. */
  predicate Loggable(s: Section, e: Entry) {
    ENTRY_HEADER + e.size <= s.slot && |e.data| == e.size
  }

  predicate EmptyFrom(d: Image, s: Section, n: nat)
    requires Fits(s, |d|)
  {
    forall i :: n <= i < s.count ==> ReadSlot(d, s, i) == Holds(EMPTY)
  }

  /** The section holds exactly the log `es`: its entries, then empty slots. */
  predicate HoldsLog(d: Image, s: Section, es: seq<Entry>) {
    && Fits(s, |d|)
    && |es| <= s.count
    && (forall i :: 0 <= i < |es| ==> Loggable(s, es[i]) && ReadSlot(d, s, i) == Holds(es[i]))
    && EmptyFrom(d, s, |es|)
  }

  /** What a log replays is its entries. */
  lemma LogReplays(d: Image, s: Section, es: seq<Entry>)
    requires HoldsLog(d, s, es)
    ensures SlotLog(d, s, |es|) == Writes(es)
  {
    forall i | 0 <= i < |es| ensures SlotLog(d, s, |es|)[i] == Writes(es)[i] {
      SlotOrder(s, i, s.count);
      assert ReadSlot(d, s, i) == Holds(es[i]);
    }
  }

  /** Appending to a log: the next slot takes what is kept of the entry. */
  lemma AppendToLog(d: Image, s: Section, es: seq<Entry>, e: Entry)
    requires HoldsLog(d, s, es) && |es| < s.count && ENTRY_HEADER + e.size <= s.slot
    ensures HoldsLog(WriteSlot(d, s, |es|, e), s, es + [Kept(e)])
  {
    var d' := WriteSlot(d, s, |es|, e);
    forall i | 0 <= i < s.count
      ensures ReadSlot(d', s, i) == if i == |es| then Holds(Kept(e)) else ReadSlot(d, s, i)
    {
      WriteSlotEffect(d, s, |es|, e, i);
    }
  }

  predicate SameSlots(d: Image, d': Image, s: Section)
    requires Fits(s, |d|) && |d'| == |d|
  {
    forall i :: 0 <= i < s.count ==> ReadSlot(d', s, i) == ReadSlot(d, s, i)
  }

  lemma LogFrame(d: Image, d': Image, s: Section, es: seq<Entry>)
    requires HoldsLog(d, s, es) && |d'| == |d| && SameSlots(d, d', s)
    ensures HoldsLog(d', s, es)
  {
  }

  /** The sections do not overlap: a change inside one leaves every slot of the other as it was. */
  predicate SectionsApart(s: Section, o: Section) {
    SlotStart(s, s.count) <= o.start || SlotStart(o, o.count) <= s.start
  }

  lemma OtherSection(d: Image, d': Image, s: Section, o: Section)
    requires Fits(o, |d|) && SectionsApart(s, o) && SameOutside(s, d, d')
    ensures SameSlots(d, d', o)
  {
    forall j | 0 <= j < o.count ensures ReadSlot(d', o, j) == ReadSlot(d, o, j) {
      SlotOrder(o, j, o.count);
      assert SlotBytes(d', o, j) == SlotBytes(d, o, j);
    }
  }

  /** The journal as a whole: its header, the buffered writes and the correct blocks. */
  predicate HoldsJournal(d: Image, h: Header, writes: seq<Entry>, blocks: seq<Entry>) {
    && GoodLayout(h, |d|)
    && h.magic == MAGIC
    && HEADER_SIZE <= |d| && d[..HEADER_SIZE] == EncodeHeader(h)
    && HoldsLog(d, WriteSection(h), writes)
    && HoldsLog(d, BlockSection(h), blocks)
  }

  /** Writing a header over the old one keeps both logs. */
  lemma HeaderFrame(d: Image, h: Header, h': Header, writes: seq<Entry>, blocks: seq<Entry>)
    requires HoldsJournal(d, h, writes, blocks) && h' == h.(flags := h'.flags)
    ensures HoldsJournal(WriteAt(d, Write(0, EncodeHeader(h'))), h', writes, blocks)
  {
    var w := Write(0, EncodeHeader(h'));
    var d' := WriteAt(d, w);
    WriteReadsBack(d, w);
    LayoutOrder(h, |d|);
    SectionAfterHeader(d, w, WriteSection(h));
    SectionAfterHeader(d, w, BlockSection(h));
    LogFrame(d, d', WriteSection(h), writes);
    LogFrame(d, d', BlockSection(h), blocks);
  }

  lemma SectionAfterHeader(d: Image, w: Write, s: Section)
    requires Fits(s, |d|) && w.offset == 0 && |w.data| == HEADER_SIZE <= s.start
    ensures SameSlots(d, WriteAt(d, w), s)
  {
    forall i | 0 <= i < s.count ensures ReadSlot(WriteAt(d, w), s, i) == ReadSlot(d, s, i) {
      SlotOrder(s, i, s.count);
      WriteApart(d, w, SlotStart(s, i), s.slot);
    }
  }

  // --- opening ------------------------------------------------------------------------------------------

  datatype Search = Free(index: nat) | NoFreeSlot | IoFailure | Panicked

  /** The first empty slot from `i` on, as the scans of `OpenJournal` look for it. */
  function FirstFree(d: Image, s: Section, i: nat): (r: Search)
    requires i <= s.count
    ensures r.Free? ==> i <= r.index < s.count
    decreases s.count - i
  {
    if i == s.count then NoFreeSlot
    else if SlotStart(s, i) + s.slot > |d| then IoFailure
    else if s.slot < ENTRY_HEADER then Panicked
    else
      match DecodeEntry(d[SlotStart(s, i)..SlotStart(s, i) + s.slot])
      case Panics => Panicked
      case Holds(e) => if e.size == 0 then Free(i) else FirstFree(d, s, i + 1)
  }

  datatype Opened =
    | Journal(header: Header, writeOffset: nat, correctOffset: nat)
    | OpenFailed

  /** `OpenJournal`: header, magic number, then the ends of the two logs. */
  function Open(d: Image): Opened {
    if |d| < HEADER_SIZE then OpenFailed
    else
      var h := DecodeHeader(d[..HEADER_SIZE]);
      if h.magic != MAGIC then OpenFailed
      else
        match FirstFree(d, WriteSection(h), 0)
        case Free(w) =>
          (match FirstFree(d, BlockSection(h), 0)
           case Free(b) => Journal(h, w, b)
           case _ => OpenFailed)
        case _ => OpenFailed
  }

  /** Whatever the device holds, it opens only with the magic number in its first eight bytes, and then
      as its own header with the ends that the scans of the two sections find. */
  lemma OpensOnlyWithMagic(d: Image)
    ensures Open(d).Journal? <==>
              && |d| >= HEADER_SIZE && FromBytes(d[..8]) == MAGIC
              && FirstFree(d, WriteSection(DecodeHeader(d[..HEADER_SIZE])), 0).Free?
              && FirstFree(d, BlockSection(DecodeHeader(d[..HEADER_SIZE])), 0).Free?
    ensures Open(d).Journal? ==>
              && Open(d).header == DecodeHeader(d[..HEADER_SIZE])
              && FirstFree(d, WriteSection(Open(d).header), 0) == Free(Open(d).writeOffset)
              && FirstFree(d, BlockSection(Open(d).header), 0) == Free(Open(d).correctOffset)
  {
    hide FirstFree, FromBytes;
    if |d| >= HEADER_SIZE {
      assert d[..HEADER_SIZE][0..8] == d[..8];
    }
  }

  /** Whatever the device holds, a scan that succeeds stops at the first slot that reads as empty. */
  lemma {:induction false} ScanIsFirst(d: Image, s: Section, i: nat, j: nat)
    requires i <= s.count && FirstFree(d, s, i).Free? && i <= j <= FirstFree(d, s, i).index
    ensures s.slot >= ENTRY_HEADER && SlotStart(s, j) + s.slot <= |d|
    ensures var r := DecodeEntry(d[SlotStart(s, j)..SlotStart(s, j) + s.slot]);
            r.Holds? && (r.entry.size == 0 <==> j == FirstFree(d, s, i).index)
    decreases s.count - i
  {
    if i == j {
    } else {
      ScanIsFirst(d, s, i + 1, j);
    }
  }

  /** The first entry of size zero from `i` on, or the end of the log. */
  function FirstEmpty(es: seq<Entry>, i: nat): (k: nat)
    requires i <= |es|
    ensures i <= k <= |es| && (k < |es| ==> es[k].size == 0)
    ensures forall j :: i <= j < k ==> es[j].size != 0
    decreases |es| - i
  {
    if i == |es| || es[i].size == 0 then i else FirstEmpty(es, i + 1)
  }

  /** The scan of a log stops at its first entry of size zero, and so finds its end if there is none;
      a full section without one makes it fail. */
  lemma {:induction false} ScanFindsEnd(d: Image, s: Section, es: seq<Entry>, i: nat)
    requires HoldsLog(d, s, es) && i <= |es|
    ensures FirstFree(d, s, i) == if FirstEmpty(es, i) < s.count then Free(FirstEmpty(es, i)) else NoFreeSlot
    decreases |es| - i
  {
    hide DecodeEntry;
    if i == s.count {
    } else {
      SlotOrder(s, i, s.count);
      assert ReadSlot(d, s, i) == DecodeEntry(d[SlotStart(s, i)..SlotStart(s, i) + s.slot]);
      if i < |es| && es[i].size != 0 {
        ScanFindsEnd(d, s, es, i + 1);
      }
    }
  }

  /** Reopening recovers the header and, in each section, the entries before the first of size zero: all
      of them if there is none. A journal with a section full of entries that are not empty does
      not open. */
  lemma ReopenRecovers(d: Image, h: Header, writes: seq<Entry>, blocks: seq<Entry>)
    requires HoldsJournal(d, h, writes, blocks)
    ensures var w, b := FirstEmpty(writes, 0), FirstEmpty(blocks, 0);
            Open(d) == if w < h.writeCount && b < h.blockCount then Journal(h, w, b) else OpenFailed
  {
    HeaderRoundTrip(h);
    ScanFindsEnd(d, WriteSection(h), writes, 0);
    ScanFindsEnd(d, BlockSection(h), blocks, 0);
  }
}
