/**
  What the artifact writer writes and the reader accepts, as functions of byte strings
  (src/artifact/writer.cpp:20-191, src/artifact/reader.cpp:59-308).
 */
module Artifact {
  import opened Bytes
  import opened Container
  import Crc64
  import Metadata

  /** A section waiting to be written. */
  datatype Section = Section(name: ByteString, tag: nat, flags: nat, data: ByteString)

  // ---------------------------------------------------------------- writing

  function Pad(n: nat): (p: nat)
    ensures p < ALIGNMENT && (n + p) % ALIGNMENT == 0
  {
    (ALIGNMENT - n % ALIGNMENT) % ALIGNMENT
  }

  /** The bytes after the header, up to the end of the first `n` sections: each padded to its alignment. */
  function Body(meta: ByteString, sections: seq<Section>, n: nat): ByteString
    requires n <= |sections|
  {
    if n == 0 then meta
    else
      var b := Body(meta, sections, n - 1);
      b + Zeros(Pad(HEADER_SIZE + |b|)) + sections[n - 1].data
  }

  /** Where section `i` starts. */
  function Offset(meta: ByteString, sections: seq<Section>, i: nat): nat
    requires i < |sections|
  {
    var at := HEADER_SIZE + |Body(meta, sections, i)|;
    at + Pad(at)
  }

  /** A name in its field: padded with zeros. */
  function NameField(name: ByteString): (r: ByteString)
    requires |name| < NAME_SIZE
    ensures |r| == NAME_SIZE
  {
    name + Zeros(NAME_SIZE - |name|)
  }

  function EntryOf(meta: ByteString, sections: seq<Section>, i: nat): (e: Entry)
    requires i < |sections| && |sections[i].name| < NAME_SIZE
    ensures |e.name| == NAME_SIZE
  {
    var s := sections[i];
    Entry(NameField(s.name), s.tag, s.flags, Offset(meta, sections, i), |s.data|, if s.data == [] then 0 else Digest(s.data))
  }

  ghost predicate ShortNames(sections: seq<Section>) {
    forall i :: 0 <= i < |sections| ==> 0 < |sections[i].name| < NAME_SIZE
  }

  /** The entries of the first `n` sections. */
  function Entries(meta: ByteString, sections: seq<Section>, n: nat): (r: seq<Entry>)
    requires ShortNames(sections) && n <= |sections|
    ensures |r| == n && NamesFilled(r)
  {
    if n == 0 then [] else Entries(meta, sections, n - 1) + [EntryOf(meta, sections, n - 1)]
  }

  ghost predicate NamesFilled(entries: seq<Entry>) {
    forall i :: 0 <= i < |entries| ==> |entries[i].name| == NAME_SIZE
  }

  /** The table, then `rest`. */
  function TableText(entries: seq<Entry>, rest: ByteString): ByteString
    requires NamesFilled(entries)
    decreases |entries|
  {
    if entries == [] then rest else EntryText(entries[0], TableText(entries[1..], rest))
  }

  function TableOffset(meta: ByteString, sections: seq<Section>): nat {
    var at := HEADER_SIZE + |Body(meta, sections, |sections|)|;
    at + Pad(at)
  }

  function HeaderOf(meta: ByteString, sections: seq<Section>): (h: Header)
    ensures |h.magic| == 8
  {
    var table := TableOffset(meta, sections);
    var size := |sections| * ENTRY_SIZE;
    Header(Magic(), 1, HEADER_SIZE, 0, |sections|, HEADER_SIZE, |meta|, table, size, table + size + FOOTER_SIZE)
  }

  /** Everything but the footer; `rest` follows. */
  function Contents(meta: ByteString, sections: seq<Section>, rest: ByteString): ByteString
    requires ShortNames(sections)
  {
    var b := Body(meta, sections, |sections|);
    var table := TableText(Entries(meta, sections, |sections|), rest);
    HeaderText(HeaderOf(meta, sections), b + (Zeros(Pad(HEADER_SIZE + |b|)) + table))
  }

  /** The written file. */
  function File(meta: ByteString, sections: seq<Section>): ByteString
    requires ShortNames(sections)
  {
    Contents(meta, sections, FooterText(Digest(Contents(meta, sections, []))))
  }

  // ---------------------------------------------------------------- reading

  /** A read at a place in a file: fails unless all of it is there. */
  function ReadAt(file: ByteString, offset: nat, n: nat): (r: Option<ByteString>)
    ensures r.Some? ==> |r.value| == n
  {
    if offset + n <= |file| then Some(file[offset..offset + n]) else None
  }

  /** A sum in 64 bits. */
  function Add64(a: nat, b: nat): nat { (a + b) % TWO_64 }

  /** The name in a field: up to the first zero. */
  function NameOf(field: ByteString): (r: ByteString)
    ensures |r| <= |field| && forall i :: 0 <= i < |r| ==> r[i] != 0
  {
    if field == [] || field[0] == 0 then [] else [field[0]] + NameOf(field[1..])
  }

  function ReadTable(s: ByteString, n: nat): (r: seq<Entry>)
    requires |s| >= n * ENTRY_SIZE
    ensures |r| == n && forall i :: 0 <= i < n ==> |r[i].name| == NAME_SIZE
  {
    if n == 0 then []
    else
      var (e, rest) := ParseEntry(s);
      [e] + ReadTable(rest, n - 1)
  }

  /** Every section's end, computed in 64 bits, lies within the file. */
  predicate InBounds(entries: seq<Entry>, size: nat) {
    forall i :: 0 <= i < |entries| ==> Add64(entries[i].offset, entries[i].size) <= size
  }

  /** Names to positions; a later section takes over the name of an earlier one. */
  function IndexOf(entries: seq<Entry>): map<ByteString, nat> {
    if entries == [] then map[]
    else IndexOf(entries[..|entries| - 1])[NameOf(entries[|entries| - 1].name) := |entries| - 1]
  }

  datatype Opened = Opened(header: Header, footer: Footer, raw: ByteString, metadata: Metadata.Metadata, entries: seq<Entry>)

  /** Steps 1 and 2 of `open`: header and footer. */
  function OpenEnds(file: ByteString): Option<(Header, Footer)> {
    if |file| < HEADER_SIZE + FOOTER_SIZE then None
    else
      var h := ParseHeader(file);
      var f := ParseFooter(file[|file| - FOOTER_SIZE..]);
      if h.magic != Magic() || h.version != 1 || h.headerSize != HEADER_SIZE || h.total != |file| then None
      else if f.magic != FooterMagic() then None
      else Some((h, f))
  }

  /** Step 3: the metadata text, empty if there is none. */
  function OpenMeta(file: ByteString, h: Header): Option<ByteString> {
    if h.metaSize == 0 then Some([])
    else if Add64(h.metaOffset, h.metaSize) > |file| then None
    else ReadAt(file, h.metaOffset, h.metaSize)
  }

  /** Text that does not parse leaves the metadata empty. */
  function MetadataOf(raw: ByteString): Metadata.Metadata {
    if raw == [] then Metadata.EMPTY
    else
      var m := Metadata.FromJson(raw);
      if m.None? then Metadata.EMPTY else m.value
  }

  /** Step 4: the section table. */
  function OpenTable(file: ByteString, h: Header): Option<seq<Entry>> {
    if h.count == 0 then Some([])
    else if h.tableSize != h.count * ENTRY_SIZE then None
    else if Add64(h.tableOffset, h.tableSize) > |file| then None
    else
      var bytes := ReadAt(file, h.tableOffset, h.count * ENTRY_SIZE);
      if bytes.None? then None
      else
        var entries := ReadTable(bytes.value, h.count);
        if InBounds(entries, |file|) then Some(entries) else None
  }

  function Open(file: ByteString): Option<Opened> {
    var ends := OpenEnds(file);
    if ends.None? then None
    else
      var (h, f) := ends.value;
      var raw := OpenMeta(file, h);
      if raw.None? then None
      else
        var entries := OpenTable(file, h);
        if entries.None? then None else Some(Opened(h, f, raw.value, MetadataOf(raw.value), entries.value))
  }

  /** `read_section`: an empty section is not checked. */
  function ReadSection(file: ByteString, o: Opened, name: ByteString): Option<ByteString> {
    var index := IndexOf(o.entries);
    if name !in index || index[name] >= |o.entries| then None
    else
      var e := o.entries[index[name]];
      if e.size == 0 then Some([])
      else
        var data := ReadAt(file, e.offset, e.size);
        if data.None? || Digest(data.value) != e.checksum then None else data
  }

  /** `validate_checksum`. */
  predicate Validates(file: ByteString, o: Opened) {
    FOOTER_SIZE <= o.header.total <= |file| && Digest(file[..o.header.total - FOOTER_SIZE]) == o.footer.checksum
  }
}
