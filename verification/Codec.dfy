/** Big-endian numbers, the journal header and the journal entries as bytes. */
module Codec {
  import opened Images

  const U32: nat := 0x1_0000_0000
  const U64: nat := 0x1_0000_0000_0000_0000

  type u32 = x: nat | x < U32
  type u64 = x: nat | x < U64

  function Pow256(n: nat): (p: nat)
    ensures p > 0
  {
    if n == 0 then 1 else 256 * Pow256(n - 1)
  }

  lemma Widths()
    ensures Pow256(4) == U32 && Pow256(8) == U64
  {
    assert Pow256(2) == 65536;
    assert Pow256(4) == U32;
    assert Pow256(6) == 65536 * U32;
    assert Pow256(8) == U64;
  }

  /** `v` in `n` bytes, most significant first; higher digits are cut off. */
  function ToBytes(v: nat, n: nat): (bs: seq<byte>)
    ensures |bs| == n
  {
    if n == 0 then [] else ToBytes(v / 256, n - 1) + [v % 256]
  }

  function FromBytes(bs: seq<byte>): (v: nat)
    ensures v < Pow256(|bs|)
  {
    if bs == [] then 0 else 256 * FromBytes(bs[..|bs| - 1]) + bs[|bs| - 1]
  }

  lemma {:induction false} NumberRoundTrip(v: nat, n: nat)
    requires v < Pow256(n)
    ensures FromBytes(ToBytes(v, n)) == v
  {
    if n == 0 {
    } else {
      NumberRoundTrip(v / 256, n - 1);
      assert ToBytes(v, n)[..n - 1] == ToBytes(v / 256, n - 1);
    }
  }

  lemma DivideTwice(v: nat, p: nat)
    requires p > 0
    ensures (v / 256) / p == v / (256 * p)
  {
    var a := v / 256;
    var q := a / p;
    var low, mid := v % 256, a % p;
    assert v == 256 * (q * p + mid) + low;
    assert v == (256 * p) * q + (256 * mid + low);
    assert 256 * mid + low < 256 * p;
    QuotientIs(v, 256 * p, q, 256 * mid + low);
  }

  lemma QuotientIs(v: nat, m: nat, q: nat, rest: nat)
    requires m > 0 && v == m * q + rest && rest < m
    ensures v / m == q
  {
    var d := v / m - q;
    assert v == m * (v / m) + v % m;
    assert m * d == rest - v % m;
    assert d >= 1 ==> m * d >= m;
    assert d <= -1 ==> m * d + m <= 0;
  }

  /** The digits of a number: byte `k` of `n` counts for the power `n - 1 - k` of 256. */
  lemma {:induction false} DigitAt(v: nat, n: nat, k: nat)
    requires k < n
    ensures ToBytes(v, n)[k] == v / Pow256(n - 1 - k) % 256
  {
    if k == n - 1 {
    } else {
      DigitAt(v / 256, n - 1, k);
      DivideTwice(v, Pow256(n - 2 - k));
    }
  }

  /** `width` bytes from `at` on are the number `v`, most significant byte first. */
  ghost predicate BigEndian(bs: seq<byte>, at: nat, width: nat, v: nat) {
    at + width <= |bs| && forall i :: at <= i < at + width ==> bs[i] == v / Pow256(at + width - 1 - i) % 256
  }

  lemma BytesAreBigEndian(bs: seq<byte>, at: nat, width: nat, v: nat)
    requires at + width <= |bs| && bs[at..at + width] == ToBytes(v, width)
    ensures BigEndian(bs, at, width, v)
  {
    forall i | at <= i < at + width ensures bs[i] == v / Pow256(at + width - 1 - i) % 256 {
      DigitAt(v, width, i - at);
      assert bs[at..at + width][i - at] == bs[i];
    }
  }

  // --- header -------------------------------------------------------------------------------------

  const MAGIC: u64 := 0x4244525F52504C43
  const HEADER_SIZE: nat := 64

  datatype Header = Header(
    magic: u64,
    writeSize: u64, writeCount: u64, writeStart: u64,
    blockSize: u64, blockCount: u64, blockStart: u64,
    flags: u64)

  function Fields(h: Header): (fs: seq<u64>)
    ensures |fs| == 8
  {
    [h.magic, h.writeSize, h.writeCount, h.writeStart, h.blockSize, h.blockCount, h.blockStart, h.flags]
  }

  /** Eight bytes per field, in order. */
  function EncodeFields(fs: seq<u64>): (bs: seq<byte>)
    ensures |bs| == 8 * |fs|
  {
    if fs == [] then [] else EncodeFields(fs[..|fs| - 1]) + ToBytes(fs[|fs| - 1], 8)
  }

  function EncodeHeader(h: Header): (bs: seq<byte>)
    ensures |bs| == HEADER_SIZE
  {
    EncodeFields(Fields(h))
  }

  function Field(bs: seq<byte>, k: nat): (v: u64)
    requires 8 * k + 8 <= |bs|
  {
    Widths();
    FromBytes(bs[8 * k..8 * k + 8])
  }

  function DecodeHeader(bs: seq<byte>): Header
    requires |bs| == HEADER_SIZE
  {
    Header(Field(bs, 0), Field(bs, 1), Field(bs, 2), Field(bs, 3),
           Field(bs, 4), Field(bs, 5), Field(bs, 6), Field(bs, 7))
  }

  lemma {:induction false} FieldRoundTrip(fs: seq<u64>, k: nat)
    requires k < |fs|
    ensures Field(EncodeFields(fs), k) == fs[k]
  {
    var n := |fs| - 1;
    if k == n {
      assert EncodeFields(fs)[8 * k..8 * k + 8] == ToBytes(fs[k], 8);
      Widths();
      NumberRoundTrip(fs[k], 8);
    } else {
      FieldRoundTrip(fs[..n], k);
      assert EncodeFields(fs)[8 * k..8 * k + 8] == EncodeFields(fs[..n])[8 * k..8 * k + 8];
    }
  }

  /** Every header survives being written and read back. */
  lemma HeaderRoundTrip(h: Header)
    ensures DecodeHeader(EncodeHeader(h)) == h
  {
    forall k: nat | k < 8 ensures Field(EncodeHeader(h), k) == Fields(h)[k] {
      FieldRoundTrip(Fields(h), k);
    }
    assert Fields(h)[0] == h.magic && Fields(h)[1] == h.writeSize && Fields(h)[2] == h.writeCount
        && Fields(h)[3] == h.writeStart && Fields(h)[4] == h.blockSize && Fields(h)[5] == h.blockCount
        && Fields(h)[6] == h.blockStart && Fields(h)[7] == h.flags;
  }

  lemma {:induction false} FieldBytes(fs: seq<u64>, k: nat)
    requires k < |fs|
    ensures EncodeFields(fs)[8 * k..8 * k + 8] == ToBytes(fs[k], 8)
  {
    var n := |fs| - 1;
    if k == n {
    } else {
      FieldBytes(fs[..n], k);
      assert EncodeFields(fs)[8 * k..8 * k + 8] == EncodeFields(fs[..n])[8 * k..8 * k + 8];
    }
  }

  lemma HeaderField(h: Header, k: nat)
    requires k < 8
    ensures BigEndian(EncodeHeader(h), 8 * k, 8, Fields(h)[k])
  {
    hide BigEndian;
    FieldBytes(Fields(h), k);
    BytesAreBigEndian(EncodeHeader(h), 8 * k, 8, Fields(h)[k]);
  }

  /** The header as it lies on the device. */
  lemma HeaderBytes(h: Header)
    ensures var bs := EncodeHeader(h);
            && BigEndian(bs, 0, 8, h.magic)
            && BigEndian(bs, 8, 8, h.writeSize) && BigEndian(bs, 16, 8, h.writeCount) && BigEndian(bs, 24, 8, h.writeStart)
            && BigEndian(bs, 32, 8, h.blockSize) && BigEndian(bs, 40, 8, h.blockCount) && BigEndian(bs, 48, 8, h.blockStart)
            && BigEndian(bs, 56, 8, h.flags)
  {
    hide BigEndian, EncodeHeader;
    HeaderField(h, 0);
    HeaderField(h, 1);
    HeaderField(h, 2);
    HeaderField(h, 3);
    HeaderField(h, 4);
    HeaderField(h, 5);
    HeaderField(h, 6);
    HeaderField(h, 7);
  }

  // The valid flag is the lowest bit of `flags`.

  predicate IsValid(h: Header) {
    h.flags % 2 == 1
  }

  function SetValid(h: Header): Header {
    if IsValid(h) then h else h.(flags := h.flags + 1)
  }

  function SetInvalid(h: Header): Header {
    if IsValid(h) then h.(flags := h.flags - 1) else h
  }

  lemma FlagSet(h: Header)
    ensures IsValid(SetValid(h)) && !IsValid(SetInvalid(h))
  {
  }

  /** Setting or clearing the flag changes one byte of the header on disk, so that a header write
      cut short anywhere leaves either the old header or the new one. */
  lemma TornHeader(h: Header, torn: seq<byte>)
    requires |torn| == HEADER_SIZE
    requires forall i :: 0 <= i < HEADER_SIZE ==>
               torn[i] == EncodeHeader(SetValid(h))[i] || torn[i] == EncodeHeader(SetInvalid(h))[i]
    ensures torn == EncodeHeader(SetValid(h)) || torn == EncodeHeader(SetInvalid(h))
  {
    FlagByte(SetInvalid(h), SetValid(h));
    LastByteDecides(EncodeHeader(SetValid(h)), EncodeHeader(SetInvalid(h)), torn);
  }

  lemma LastByteDecides(a: seq<byte>, b: seq<byte>, mix: seq<byte>)
    requires |a| == |b| == |mix| == HEADER_SIZE && a[..63] == b[..63]
    requires forall i :: 0 <= i < HEADER_SIZE ==> mix[i] == a[i] || mix[i] == b[i]
    ensures mix == a || mix == b
  {
    forall i | 0 <= i < 63 ensures mix[i] == a[i] == b[i] {
      assert a[..63][i] == b[..63][i];
    }
    if mix[63] == a[63] {
      assert mix == a;
    } else {
      assert mix == b;
    }
  }

  /** All but the last byte of the header. */
  lemma HeaderFront(h: Header)
    ensures EncodeHeader(h)[..63] == EncodeFields(Fields(h)[..7]) + ToBytes(h.flags / 256, 7)
  {
    assert EncodeHeader(h) == EncodeFields(Fields(h)[..7]) + ToBytes(h.flags, 8);
    assert ToBytes(h.flags, 8) == ToBytes(h.flags / 256, 7) + [h.flags % 256];
  }

  lemma LowestBit(v: nat)
    requires v % 2 == 0
    ensures (v + 1) / 256 == v / 256
  {
    assert v == 2 * (v / 2);
    assert v / 256 == (v / 2) / 128;
  }

  /** Headers that differ in the lowest bit of the flags differ at most in the last byte. */
  lemma FlagByte(h: Header, u: Header)
    requires h.flags % 2 == 0 && u == h.(flags := h.flags + 1)
    ensures EncodeHeader(u)[..63] == EncodeHeader(h)[..63]
  {
    HeaderFront(h);
    HeaderFront(u);
    LowestBit(h.flags);
    assert Fields(u)[..7] == Fields(h)[..7];
  }

  // --- entries ----------------------------------------------------------------------------------------

  /** A buffered write or a correct block, as it is sent and as the journal stores it. */
  datatype Entry = Entry(offset: u64, size: u32, data: seq<byte>)

  const ENTRY_HEADER: nat := 12

  function Min(a: nat, b: nat): nat {
    if a < b then a else b
  }

  function Zeros(n: nat): (z: seq<byte>)
    ensures |z| == n
  {
    seq(n, _ => 0)
  }

  /** The bytes of `data` that the journal keeps: cut, or padded with zeros, to `size`. */
  function Kept(e: Entry): (r: Entry) {
    var k := Min(|e.data|, e.size);
    e.(data := e.data[..k] + Zeros(e.size - k))
  }

  /** The entry, written into a zeroed slot of `n` bytes. */
  function EncodeEntry(e: Entry, n: nat): (bs: seq<byte>)
    requires ENTRY_HEADER + Min(|e.data|, e.size) <= n
    ensures |bs| == n
  {
    var k := Min(|e.data|, e.size);
    ToBytes(e.offset, 8) + ToBytes(e.size, 4) + (e.data[..k] + Zeros(n - ENTRY_HEADER - k))
  }

  datatype Decoded = Holds(entry: Entry) | Panics

  /** Reading a slot back; a size larger than the slot makes the slice expression panic. */
  function DecodeEntry(bs: seq<byte>): (r: Decoded)
    requires |bs| >= ENTRY_HEADER
    ensures r.Holds? ==> |r.entry.data| == r.entry.size
  {
    Widths();
    var offset, size := FromBytes(bs[..8]), FromBytes(bs[8..12]);
    if ENTRY_HEADER + size > |bs| then Panics else Holds(Entry(offset, size, bs[12..12 + size]))
  }

  /** Every entry that fits its slot reads back with its offset, its size and the bytes kept of its
      data; one whose size exceeds the slot cannot be read back at all. */
  lemma EntryRoundTrip(e: Entry, n: nat)
    requires ENTRY_HEADER + Min(|e.data|, e.size) <= n
    ensures DecodeEntry(EncodeEntry(e, n)) == if ENTRY_HEADER + e.size <= n then Holds(Kept(e)) else Panics
  {
    Widths();
    NumberRoundTrip(e.offset, 8);
    NumberRoundTrip(e.size, 4);
    var bs := EncodeEntry(e, n);
    assert bs[..8] == ToBytes(e.offset, 8) && bs[8..12] == ToBytes(e.size, 4);
    if ENTRY_HEADER + e.size <= n {
      assert bs[12..12 + e.size] == Kept(e).data;
    }
  }

  /** The write that the replica receives for an entry. */
  function ToWrite(e: Entry): Write
    requires e.size <= |e.data|
  {
    Write(e.offset, e.data[..e.size])
  }

  function Writes(es: seq<Entry>): (ws: seq<Write>)
    requires forall i :: 0 <= i < |es| ==> |es[i].data| == es[i].size
    ensures |ws| == |es|
  {
    seq(|es|, i requires 0 <= i < |es| => ToWrite(es[i]))
  }

  lemma KeptWrite(e: Entry)
    requires e.size <= |e.data|
    ensures |Kept(e).data| == e.size && ToWrite(Kept(e)) == ToWrite(e)
  {
    assert Kept(e).data == e.data[..e.size];
  }

  const EMPTY: Entry := Entry(0, 0, [])

  /** An entry as it lies in its slot: offset, size, the bytes kept of the data, zeros. */
  lemma EntryBytes(e: Entry, n: nat)
    requires ENTRY_HEADER + Min(|e.data|, e.size) <= n
    ensures var bs, k := EncodeEntry(e, n), Min(|e.data|, e.size);
            && BigEndian(bs, 0, 8, e.offset) && BigEndian(bs, 8, 4, e.size)
            && bs[12..12 + k] == e.data[..k]
            && forall i :: 12 + k <= i < n ==> bs[i] == 0
  {
    hide BigEndian, ToBytes, Pow256;
    var bs := EncodeEntry(e, n);
    assert bs[0..8] == ToBytes(e.offset, 8) && bs[8..12] == ToBytes(e.size, 4);
    BytesAreBigEndian(bs, 0, 8, e.offset);
    BytesAreBigEndian(bs, 8, 4, e.size);
  }

  /** Clearing a slot writes zeros, and zeros read back as the empty entry. */
  lemma EmptySlot(n: nat)
    requires n >= ENTRY_HEADER
    ensures EncodeEntry(EMPTY, n) == Zeros(n) && DecodeEntry(Zeros(n)) == Holds(EMPTY)
  {
    hide ToBytes, FromBytes, EncodeEntry, DecodeEntry;
    EntryRoundTrip(EMPTY, n);
    EncodesZeros(n);
    assert Kept(EMPTY) == EMPTY;
  }

  lemma EncodesZeros(n: nat)
    requires n >= ENTRY_HEADER
    ensures EncodeEntry(EMPTY, n) == Zeros(n)
  {
    hide ToBytes, FromBytes;
    ZeroBytes(8);
    ZeroBytes(4);
    assert EncodeEntry(EMPTY, n) == Zeros(8) + Zeros(4) + Zeros(n - ENTRY_HEADER);
  }

  lemma {:induction false} ZeroBytes(n: nat)
    ensures ToBytes(0, n) == Zeros(n)
  {
    if n == 0 {
    } else {
      ZeroBytes(n - 1);
    }
  }
}
