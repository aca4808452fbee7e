/**
  The artifact container (src/artifact/container.h:11-65): packed little-endian structures, and the values that reading
  and writing them mean. The writer is in src/artifact/writer.cpp:20-191, the reader in src/artifact/reader.cpp:59-308.
 */
module Container {
  import opened Bytes
  import Crc64
  import Metadata

  const HEADER_SIZE: nat := 64
  const ENTRY_SIZE: nat := 128
  const FOOTER_SIZE: nat := 16
  const NAME_SIZE: nat := 96
  const ALIGNMENT: nat := 64
  const TWO_64: nat := 0x1_0000_0000_0000_0000
  const TWO_32: nat := 0x1_0000_0000

  function Magic(): ByteString { [88, 73, 78, 70, 69, 82, 0, 0] }
  function FooterMagic(): ByteString { [88, 73, 78, 70, 70, 79, 79, 84] }

  /** The CRC-64 of some bytes, as the 64-bit number that is stored. */
  function Digest(data: ByteString): nat { Crc64.Value(Crc64.Checksum(data)) }

  // ---------------------------------------------------------------- structures

  datatype Header = Header(magic: ByteString, version: nat, headerSize: nat, flags: nat, count: nat, metaOffset: nat,
                           metaSize: nat, tableOffset: nat, tableSize: nat, total: nat)
  {
    ghost predicate Fits() {
      && |magic| == 8 && version < TWO_32 && headerSize < TWO_32 && flags < TWO_32 && count < TWO_32
      && metaOffset < TWO_64 && metaSize < TWO_64 && tableOffset < TWO_64 && tableSize < TWO_64 && total < TWO_64
    }
  }

  /** `name` is the whole 96-byte field. */
  datatype Entry = Entry(name: ByteString, tag: nat, flags: nat, offset: nat, size: nat, checksum: nat) {
    ghost predicate Fits() {
      |name| == NAME_SIZE && tag < TWO_32 && flags < TWO_32 && offset < TWO_64 && size < TWO_64 && checksum < TWO_64
    }
  }

  datatype Footer = Footer(checksum: nat, magic: ByteString)

  function U32(x: nat): (r: ByteString)
    ensures |r| == 4
  {
    LittleEndian(x, 4)
  }

  function U64(x: nat): (r: ByteString)
    ensures |r| == 8
  {
    LittleEndian(x, 8)
  }

  /** A header, then `rest`. */
  function HeaderText(h: Header, rest: ByteString): (r: ByteString)
    requires |h.magic| == 8
    ensures |r| == HEADER_SIZE + |rest|
  {
    h.magic + (U32(h.version) + (U32(h.headerSize) + (U32(h.flags) + (U32(h.count) + (U64(h.metaOffset) + (U64(h.metaSize)
      + (U64(h.tableOffset) + (U64(h.tableSize) + (U64(h.total) + rest)))))))))
  }

  function EntryText(e: Entry, rest: ByteString): (r: ByteString)
    requires |e.name| == NAME_SIZE
    ensures |r| == ENTRY_SIZE + |rest|
  {
    e.name + (U32(e.tag) + (U32(e.flags) + (U64(e.offset) + (U64(e.size) + (U64(e.checksum) + rest)))))
  }

  function FooterText(checksum: nat): (r: ByteString)
    ensures |r| == FOOTER_SIZE
  {
    U64(checksum) + FooterMagic()
  }

  /** An unsigned integer of `n` bytes at the head of `s`, and what follows. */
  function Take(s: ByteString, n: nat): (r: (nat, ByteString))
    requires n <= |s|
    ensures |r.1| == |s| - n
  {
    (FromLittleEndian(s[..n]), s[n..])
  }

  function ParseHeader(s: ByteString): Header
    requires |s| >= HEADER_SIZE
  {
    var (version, s1) := Take(s[8..], 4);
    var (headerSize, s2) := Take(s1, 4);
    var (flags, s3) := Take(s2, 4);
    var (count, s4) := Take(s3, 4);
    var (metaOffset, s5) := Take(s4, 8);
    var (metaSize, s6) := Take(s5, 8);
    var (tableOffset, s7) := Take(s6, 8);
    var (tableSize, s8) := Take(s7, 8);
    var (total, _) := Take(s8, 8);
    Header(s[..8], version, headerSize, flags, count, metaOffset, metaSize, tableOffset, tableSize, total)
  }

  function ParseEntry(s: ByteString): (r: (Entry, ByteString))
    requires |s| >= ENTRY_SIZE
    ensures |r.1| == |s| - ENTRY_SIZE && |r.0.name| == NAME_SIZE
  {
    var (tag, s1) := Take(s[NAME_SIZE..], 4);
    var (flags, s2) := Take(s1, 4);
    var (offset, s3) := Take(s2, 8);
    var (size, s4) := Take(s3, 8);
    var (checksum, s5) := Take(s4, 8);
    (Entry(s[..NAME_SIZE], tag, flags, offset, size, checksum), s5)
  }

  function ParseFooter(s: ByteString): Footer
    requires |s| == FOOTER_SIZE
  {
    Footer(FromLittleEndian(s[..8]), s[8..])
  }

  lemma TakeReads(x: nat, n: nat, rest: ByteString)
    requires x < Pow256(n)
    ensures Take(LittleEndian(x, n) + rest, n) == (x, rest)
  {
    LittleEndianRoundTrip(x, n);
    var s := LittleEndian(x, n) + rest;
    assert s[..n] == LittleEndian(x, n) && s[n..] == rest;
  }

  lemma TakesU32(x: nat, rest: ByteString)
    requires x < TWO_32
    ensures Take(U32(x) + rest, 4) == (x, rest)
  {
    Widths();
    TakeReads(x, 4, rest);
  }

  lemma TakesU64(x: nat, rest: ByteString)
    requires x < TWO_64
    ensures Take(U64(x) + rest, 8) == (x, rest)
  {
    Widths();
    TakeReads(x, 8, rest);
  }

  /** The header is read back. */
  lemma HeaderRoundTrip(h: Header, rest: ByteString)
    requires h.Fits()
    ensures ParseHeader(HeaderText(h, rest)) == h
  {
    var s9 := U64(h.total) + rest;
    var s8 := U64(h.tableSize) + s9;
    var s7 := U64(h.tableOffset) + s8;
    var s6 := U64(h.metaSize) + s7;
    var s5 := U64(h.metaOffset) + s6;
    var s4 := U32(h.count) + s5;
    var s3 := U32(h.flags) + s4;
    var s2 := U32(h.headerSize) + s3;
    var s1 := U32(h.version) + s2;
    TakesU32(h.version, s2);
    TakesU32(h.headerSize, s3);
    TakesU32(h.flags, s4);
    TakesU32(h.count, s5);
    TakesU64(h.metaOffset, s6);
    TakesU64(h.metaSize, s7);
    TakesU64(h.tableOffset, s8);
    TakesU64(h.tableSize, s9);
    TakesU64(h.total, rest);
    assert (h.magic + s1)[..8] == h.magic && (h.magic + s1)[8..] == s1;
  }

  lemma EntryRoundTrip(e: Entry, rest: ByteString)
    requires e.Fits()
    ensures ParseEntry(EntryText(e, rest)) == (e, rest)
  {
    var s4 := U64(e.checksum) + rest;
    var s3 := U64(e.size) + s4;
    var s2 := U64(e.offset) + s3;
    var s1 := U32(e.flags) + s2;
    var s0 := U32(e.tag) + s1;
    TakesU32(e.tag, s1);
    TakesU32(e.flags, s2);
    TakesU64(e.offset, s3);
    TakesU64(e.size, s4);
    TakesU64(e.checksum, rest);
    assert (e.name + s0)[..NAME_SIZE] == e.name && (e.name + s0)[NAME_SIZE..] == s0;
  }

  lemma FooterRoundTrip(checksum: nat)
    requires checksum < TWO_64
    ensures ParseFooter(FooterText(checksum)) == Footer(checksum, FooterMagic())
  {
    TakesU64(checksum, FooterMagic());
  }

  // ---------------------------------------------------------------- where the fields are

  /** The packed header, field by field. */
  ghost predicate IsHeader(s: ByteString, h: Header) {
    && |s| >= 64 && s[..8] == h.magic
    && IsField(s, 8, 4, h.version) && IsField(s, 12, 4, h.headerSize)
    && IsField(s, 16, 4, h.flags) && IsField(s, 20, 4, h.count)
    && IsField(s, 24, 8, h.metaOffset) && IsField(s, 32, 8, h.metaSize)
    && IsField(s, 40, 8, h.tableOffset) && IsField(s, 48, 8, h.tableSize)
    && IsField(s, 56, 8, h.total)
  }

  ghost predicate IsEntry(s: ByteString, e: Entry) {
    && |s| >= 128 && s[..96] == e.name
    && IsField(s, 96, 4, e.tag) && IsField(s, 100, 4, e.flags)
    && IsField(s, 104, 8, e.offset) && IsField(s, 112, 8, e.size) && IsField(s, 120, 8, e.checksum)
  }

  ghost predicate IsFooter(s: ByteString, f: Footer) {
    |s| == 16 && IsField(s, 0, 8, f.checksum) && s[8..] == f.magic
  }

  lemma TakeFrom(s: ByteString, at: nat, n: nat)
    requires at + n <= |s|
    ensures Take(s[at..], n) == (FromLittleEndian(s[at..at + n]), s[at + n..])
  {
    assert s[at..][..n] == s[at..at + n] && s[at..][n..] == s[at + n..];
  }

  /** What the header is read as, and nothing else, has its fields at these places. */
  lemma HeaderLayout(s: ByteString, h: Header)
    requires |s| >= HEADER_SIZE
    ensures ParseHeader(s) == h <==> IsHeader(s, h)
  {
    TakeFrom(s, 8, 4);
    TakeFrom(s, 12, 4);
    TakeFrom(s, 16, 4);
    TakeFrom(s, 20, 4);
    TakeFrom(s, 24, 8);
    TakeFrom(s, 32, 8);
    TakeFrom(s, 40, 8);
    TakeFrom(s, 48, 8);
    TakeFrom(s, 56, 8);
    FieldIsRead(s, 8, 4, h.version);
    FieldIsRead(s, 12, 4, h.headerSize);
    FieldIsRead(s, 16, 4, h.flags);
    FieldIsRead(s, 20, 4, h.count);
    FieldIsRead(s, 24, 8, h.metaOffset);
    FieldIsRead(s, 32, 8, h.metaSize);
    FieldIsRead(s, 40, 8, h.tableOffset);
    FieldIsRead(s, 48, 8, h.tableSize);
    FieldIsRead(s, 56, 8, h.total);
  }

  lemma EntryLayout(s: ByteString, e: Entry)
    requires |s| >= ENTRY_SIZE
    ensures ParseEntry(s).0 == e <==> IsEntry(s, e)
  {
    TakeFrom(s, 96, 4);
    TakeFrom(s, 100, 4);
    TakeFrom(s, 104, 8);
    TakeFrom(s, 112, 8);
    TakeFrom(s, 120, 8);
    FieldIsRead(s, 96, 4, e.tag);
    FieldIsRead(s, 100, 4, e.flags);
    FieldIsRead(s, 104, 8, e.offset);
    FieldIsRead(s, 112, 8, e.size);
    FieldIsRead(s, 120, 8, e.checksum);
  }

  lemma FooterLayout(s: ByteString, f: Footer)
    requires |s| == FOOTER_SIZE
    ensures ParseFooter(s) == f <==> IsFooter(s, f)
  {
    FieldIsRead(s, 0, 8, f.checksum);
  }

  /** What is written is laid out like this. */
  lemma WrittenEntry(e: Entry, rest: ByteString)
    requires e.Fits()
    ensures IsEntry(EntryText(e, rest), e)
  {
    EntryRoundTrip(e, rest);
    EntryLayout(EntryText(e, rest), e);
  }
}
