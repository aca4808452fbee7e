/** The artifact writer and reader (src/artifact/writer.cpp:12-191, src/artifact/reader.cpp:45-308), over files as byte strings. */
module ArtifactIO {
  import opened Bytes
  import opened Container
  import opened Artifact
  import opened ArtifactTheorems
  import Crc64
  import Metadata
  import MetadataIO

  // ---------------------------------------------------------------- the writer

  class ArtifactWriter {
    var metadataJson: ByteString
    var sections: seq<Section>

    /** Names are short, not empty, and differ. */
    ghost predicate Valid()
      reads this
    {
      ShortNames(sections) && Distinct(sections)
    }

    constructor ()
      ensures Valid() && metadataJson == [] && sections == []
    {
      metadataJson, sections := [], [];
    }

    method SetMetadata(m: Metadata.Metadata, es: seq<(ByteString, ByteString)>)
      requires Valid() && Metadata.Walks(es, m.properties)
      modifies this`metadataJson
      ensures Valid() && metadataJson == Metadata.Text(m, es)
    {
      var text := MetadataIO.ToJson(m, es);
      metadataJson := text;
    }

    /** Refuses empty, overlong and repeated names; otherwise the section is appended. */
    method AddSection(name: ByteString, tag: nat, data: ByteString, flags: nat) returns (ok: bool)
      requires Valid()
      modifies this`sections
      ensures Valid()
      ensures ok == (0 < |name| < NAME_SIZE && forall i :: 0 <= i < |old(sections)| ==> old(sections)[i].name != name)
      ensures sections == old(sections) + if ok then [Section(name, tag, flags, data)] else []
    {
      if name == [] || |name| >= NAME_SIZE { return false; }
      for i := 0 to |sections|
        invariant forall j :: 0 <= j < i ==> sections[j].name != name
      {
        if sections[i].name == name { return false; }
      }
      sections := sections + [Section(name, tag, flags, data)];
      ok := true;
    }

    /** `write_to_file`, as the bytes that end up in the file. */
    method WriteToFile(table: array<Crc64.Word>) returns (file: ByteString)
      requires Valid() && Crc64.IsTable(table[..])
      ensures file == File(metadataJson, sections)
    {
      file := WriteFile(table, metadataJson, sections);
    }
  }

  /** A placeholder for the header, the metadata, and the sections with their padding; then table, header and footer. */
  method WriteFile(table: array<Crc64.Word>, meta: ByteString, sections: seq<Section>) returns (file: ByteString)
    requires ShortNames(sections) && Crc64.IsTable(table[..])
    ensures file == File(meta, sections)
  {
    var out, entries := WriteSections(table, meta, sections);
    var body := FinishBody(meta, sections, out, entries);
    file := SealFile(table, body);
    ContentsThen(meta, sections, FooterText(Digest(body)));
  }

  method WriteSections(table: array<Crc64.Word>, meta: ByteString, sections: seq<Section>)
    returns (out: ByteString, entries: seq<Entry>)
    requires ShortNames(sections) && Crc64.IsTable(table[..])
    ensures |out| >= HEADER_SIZE && out[HEADER_SIZE..] == Body(meta, sections, |sections|)
    ensures entries == Entries(meta, sections, |sections|)
  {
    out, entries := Zeros(HEADER_SIZE) + meta, [];
    assert out[HEADER_SIZE..] == meta;
    for i := 0 to |sections|
      invariant |out| >= HEADER_SIZE && out[HEADER_SIZE..] == Body(meta, sections, i)
      invariant entries == Entries(meta, sections, i)
    {
      var e;
      out, e := WriteSection(table, out, meta, sections, i);
      entries := entries + [e];
    }
  }

  /** One section: padding, entry and payload. */
  method WriteSection(table: array<Crc64.Word>, start: ByteString, ghost meta: ByteString, sections: seq<Section>, i: nat)
    returns (out: ByteString, e: Entry)
    requires Crc64.IsTable(table[..]) && i < |sections| && |sections[i].name| < NAME_SIZE
    requires |start| >= HEADER_SIZE && start[HEADER_SIZE..] == Body(meta, sections, i)
    ensures |out| >= HEADER_SIZE && out[HEADER_SIZE..] == Body(meta, sections, i + 1) && e == EntryOf(meta, sections, i)
  {
    var s := sections[i];
    ghost var b := start[HEADER_SIZE..];
    out := start + Zeros(Pad(|start|));
    e := EntryFor(table, s, |out|);
    out := out + s.data;
    AfterPrefix(start, Zeros(Pad(|start|)), s.data);
  }

  lemma AfterPrefix(a: ByteString, b: ByteString, c: ByteString)
    requires |a| >= HEADER_SIZE
    ensures (a + b + c)[HEADER_SIZE..] == a[HEADER_SIZE..] + b + c
  {
  }

  method EntryFor(table: array<Crc64.Word>, s: Section, offset: nat) returns (e: Entry)
    requires Crc64.IsTable(table[..]) && |s.name| < NAME_SIZE
    ensures e == Entry(NameField(s.name), s.tag, s.flags, offset, |s.data|, if s.data == [] then 0 else Digest(s.data))
  {
    var checksum := ChecksumOf(table, s.data);
    e := Entry(NameField(s.name), s.tag, s.flags, offset, |s.data|, checksum);
  }

  /** An empty payload has checksum 0. */
  method ChecksumOf(table: array<Crc64.Word>, data: ByteString) returns (c: nat)
    requires Crc64.IsTable(table[..])
    ensures c == if data == [] then 0 else Digest(data)
  {
    if data == [] { return 0; }
    var crc := Crc64.Calculate(table, data);
    c := Crc64.Value(crc);
  }

  /** The table goes to the end, the header back to the start. */
  method FinishBody(meta: ByteString, sections: seq<Section>, out: ByteString, entries: seq<Entry>) returns (body: ByteString)
    requires ShortNames(sections) && |out| >= HEADER_SIZE && out[HEADER_SIZE..] == Body(meta, sections, |sections|)
    requires entries == Entries(meta, sections, |sections|)
    ensures body == Contents(meta, sections, [])
  {
    var header := FinalHeader(meta, sections, |out|, |entries|);
    body := HeaderText(header, out[HEADER_SIZE..] + (Zeros(Pad(|out|)) + TableText(entries, [])));
  }

  method FinalHeader(meta: ByteString, sections: seq<Section>, offset: nat, count: nat) returns (h: Header)
    requires offset == HEADER_SIZE + |Body(meta, sections, |sections|)| && count == |sections|
    ensures h == HeaderOf(meta, sections)
  {
    var tableOffset := offset + Pad(offset);
    var tableSize := count * ENTRY_SIZE;
    h := Header(Magic(), 1, HEADER_SIZE, 0, |sections|, HEADER_SIZE, |meta|, tableOffset, tableSize,
                tableOffset + tableSize + FOOTER_SIZE);
  }

  /** The footer, with the checksum computed in pieces of 64 KiB. */
  method SealFile(table: array<Crc64.Word>, body: ByteString) returns (file: ByteString)
    requires Crc64.IsTable(table[..])
    ensures file == body + FooterText(Digest(body))
  {
    var crc := Crc64.CalculateBuffered(table, body, 64 * 1024);
    file := body + FooterText(Crc64.Value(crc));
  }

  // ---------------------------------------------------------------- the reader

  lemma ReadStep(s: ByteString, n: nat)
    requires n > 0 && |s| >= n * ENTRY_SIZE
    ensures ReadTable(s, n) == [ParseEntry(s).0] + ReadTable(ParseEntry(s).1, n - 1)
  {
  }

  /** The entries of a table, one after the other. */
  method ReadEntries(bytes: ByteString, count: nat) returns (entries: seq<Entry>)
    requires |bytes| >= count * ENTRY_SIZE
    ensures entries == ReadTable(bytes, count)
  {
    entries := [];
    var rest, left: nat := bytes, count;
    ghost var all := ReadTable(bytes, count);
    while left > 0
      invariant |rest| >= left * ENTRY_SIZE && all == entries + ReadTable(rest, left)
    {
      var r := ParseEntry(rest);
      ReadStep(rest, left);
      Assoc(entries, [r.0], ReadTable(r.1, left - 1));
      entries, rest, left := entries + [r.0], r.1, left - 1;
    }
  }

  /** The loop that checks the sections' bounds and fills the index. */
  method IndexEntries(entries: seq<Entry>, size: nat) returns (ok: bool, index: map<ByteString, nat>)
    ensures ok == InBounds(entries, size)
    ensures ok ==> index == IndexOf(entries)
  {
    index := map[];
    for i := 0 to |entries|
      invariant InBounds(entries[..i], size) && index == IndexOf(entries[..i])
    {
      assert entries[..i + 1][..i] == entries[..i];
      if Add64(entries[i].offset, entries[i].size) > size { return false, index; }
      index := index[NameOf(entries[i].name) := i];
    }
    assert entries[..|entries|] == entries;
    ok := true;
  }

  class ArtifactReader {
    var file: ByteString
    var isOpen: bool
    var header: Header
    var footer: Footer
    var raw: ByteString
    var metadata: Metadata.Metadata
    var entries: seq<Entry>
    var index: map<ByteString, nat>
    const table: array<Crc64.Word>

    /** An open reader has the index of its sections, and a header that knows the size of the file; a closed one has no index. */
    ghost predicate Valid()
      reads this, table
    {
      && Crc64.IsTable(table[..])
      && if isOpen then index == IndexOf(entries) && FOOTER_SIZE <= header.total == |file| else index == map[]
    }

    /** What the fields of an open reader say. */
    ghost function View(): Opened
      reads this
    {
      Opened(header, footer, raw, metadata, entries)
    }

    constructor (crcTable: array<Crc64.Word>)
      requires Crc64.IsTable(crcTable[..])
      ensures Valid() && !isOpen && table == crcTable
    {
      table := crcTable;
      file, isOpen, raw, metadata, entries, index := [], false, [], Metadata.EMPTY, [], map[];
      header, footer := Header([], 0, 0, 0, 0, 0, 0, 0, 0, 0), Footer(0, []);
    }

    method Close()
      requires Valid()
      modifies this
      ensures Valid() && !isOpen && entries == [] && raw == [] && metadata == Metadata.EMPTY && index == map[]
    {
      file, isOpen, raw, metadata, entries, index := [], false, [], Metadata.EMPTY, [], map[];
    }

    /** `open`: succeeds exactly on the files that pass every check. */
    method OpenFile(f: ByteString) returns (ok: bool)
      requires Valid()
      modifies this
      ensures Valid() && ok == isOpen && Open(f) == if ok then Some(View()) else None
      ensures ok ==> file == f
    {
      Close();
      var ends := ReadEnds(f);
      if ends.None? { return false; }
      var h := ends.value.0;
      var text := ReadMeta(f, h);
      if text.None? { return false; }
      var meta := ParseMeta(text.value);
      var t, es, ix := ReadSections(f, h);
      if !t { return false; }
      OpenSize(f);
      file, isOpen, header, footer, raw, metadata, entries, index := f, true, h, ends.value.1, text.value, meta, es, ix;
      ok := true;
    }

    /** `read_section`: a reader that is not open has no sections. */
    method ReadNamed(name: ByteString) returns (data: Option<ByteString>)
      requires Valid()
      ensures data == if isOpen then ReadSection(file, View(), name) else None
    {
      if name !in index { return None; }
      IndexInRange(entries, name);
      var e := entries[index[name]];
      if e.size == 0 { return Some([]); }
      data := ReadAt(file, e.offset, e.size);
      if data.None? { return None; }
      var crc := Crc64.Calculate(table, data.value);
      if Crc64.Value(crc) != e.checksum { return None; }
    }

    /** `validate_checksum`: whatever the buffer size, the whole file but the footer is checked. */
    method ValidateChecksum(bufferSize: nat) returns (ok: bool)
      requires Valid()
      ensures ok == (isOpen && Validates(file, View()))
    {
      if !isOpen { return false; }
      ok := CheckBody(table, file, header.total, footer.checksum, bufferSize);
    }
  }

  /** The checksum of everything before the footer, computed a buffer at a time. */
  method CheckBody(table: array<Crc64.Word>, file: ByteString, total: nat, checksum: nat, bufferSize: nat) returns (ok: bool)
    requires Crc64.IsTable(table[..]) && FOOTER_SIZE <= total <= |file|
    ensures ok == (Digest(file[..total - FOOTER_SIZE]) == checksum)
  {
    var crc := Crc64.CalculateBuffered(table, file[..total - FOOTER_SIZE], bufferSize);
    ok := Crc64.Value(crc) == checksum;
  }

  lemma OpenSize(f: ByteString)
    requires Open(f).Some?
    ensures FOOTER_SIZE <= Open(f).value.header.total == |f|
  {
    OpenKeepsEnds(f);
    OpenChecksEnds(f);
  }

  lemma {:induction false} IndexInRange(entries: seq<Entry>, name: ByteString)
    requires name in IndexOf(entries)
    ensures IndexOf(entries)[name] < |entries|
  {
    var n := |entries| - 1;
    if name != NameOf(entries[n].name) { IndexInRange(entries[..n], name); }
  }

  /** Header and footer, with the checks on them. */
  method ReadEnds(f: ByteString) returns (r: Option<(Header, Footer)>)
    ensures r == OpenEnds(f)
  {
    if |f| < HEADER_SIZE + FOOTER_SIZE { return None; }
    var h := ParseHeader(f);
    if h.magic != Magic() { return None; }
    if h.version != 1 { return None; }
    if h.headerSize != HEADER_SIZE { return None; }
    if h.total != |f| { return None; }
    var footer := ParseFooter(f[|f| - FOOTER_SIZE..]);
    if footer.magic != FooterMagic() { return None; }
    r := Some((h, footer));
  }

  method ReadMeta(f: ByteString, h: Header) returns (r: Option<ByteString>)
    ensures r == OpenMeta(f, h)
  {
    if h.metaSize > 0 {
      if Add64(h.metaOffset, h.metaSize) > |f| { return None; }
      r := ReadAt(f, h.metaOffset, h.metaSize);
    } else {
      r := Some([]);
    }
  }

  method ParseMeta(text: ByteString) returns (m: Metadata.Metadata)
    ensures m == MetadataOf(text)
  {
    if text == [] { return Metadata.EMPTY; }
    var parsed := MetadataIO.ReadJson(text);
    m := if parsed.Some? then parsed.value else Metadata.EMPTY;
  }

  method ReadSections(f: ByteString, h: Header) returns (ok: bool, entries: seq<Entry>, index: map<ByteString, nat>)
    ensures OpenTable(f, h) == if ok then Some(entries) else None
    ensures ok ==> index == IndexOf(entries)
  {
    entries, index := [], map[];
    if h.count == 0 { return true, [], map[]; }
    if h.tableSize != h.count * ENTRY_SIZE { return false, [], map[]; }
    if Add64(h.tableOffset, h.tableSize) > |f| { return false, [], map[]; }
    var bytes := ReadAt(f, h.tableOffset, h.count * ENTRY_SIZE);
    if bytes.None? { return false, [], map[]; }
    entries := ReadEntries(bytes.value, h.count);
    ok, index := IndexEntries(entries, |f|);
  }

  /** What a file that opens, validates and returns a section does to a reader. */
  method ReadBack(r: ArtifactReader, file: ByteString, ghost o: Opened, name: ByteString)
    returns (accepted: bool, valid: bool, data: Option<ByteString>)
    requires r.Valid() && Open(file) == Some(o)
    modifies r
    ensures r.Valid() && accepted && r.metadata == o.metadata && valid == Validates(file, o)
    ensures data == ReadSection(file, o, name)
  {
    accepted := r.OpenFile(file);
    valid := r.ValidateChecksum(0);
    data := r.ReadNamed(name);
  }

  /** The text is the metadata, printed with its properties in some order. */
  ghost predicate Prints(text: ByteString, m: Metadata.Metadata, es: seq<(ByteString, ByteString)>) {
    Metadata.Walks(es, m.properties) && text == Metadata.Text(m, es)
  }

  /** Write, open, validate, read: the metadata comes back, and by any name the last section known by it. */
  method WriteAndReadBack(w: ArtifactWriter, r: ArtifactReader, m: Metadata.Metadata, es: seq<(ByteString, ByteString)>,
                          name: ByteString)
    returns (accepted: bool, valid: bool, data: Option<ByteString>)
    requires w.Valid() && r.Valid() && Prints(w.metadataJson, m, es) && Storable(w.metadataJson, w.sections)
    modifies r
    ensures r.Valid() && accepted && valid && r.metadata == m && data == Named(w.sections, name)
    ensures OwnBytes(w.sections, name, data)
  {
    ghost var sections := w.sections;
    NamedIsOwn(sections, name);
    var file, o := WriteReadable(r.table, w.metadataJson, w.sections, m, es, name);
    ghost var expected := Named(sections, name);
    assert ReadSection(file, o, name) == expected;
    accepted, valid, data := ReadBack(r, file, o, name);
  }

  /** What is written can be read. */
  method WriteReadable(table: array<Crc64.Word>, meta: ByteString, sections: seq<Section>, ghost m: Metadata.Metadata,
                       ghost es: seq<(ByteString, ByteString)>, ghost name: ByteString)
    returns (file: ByteString, ghost o: Opened)
    requires Crc64.IsTable(table[..]) && Prints(meta, m, es) && Storable(meta, sections)
    ensures Open(file) == Some(o) && Validates(file, o) && o.metadata == m
    ensures ReadSection(file, o, name) == Named(sections, name)
  {
    file := WriteFile(table, meta, sections);
    o := OpenedOf(meta, sections);
    RoundTrip(meta, sections, m, es, name, file, o);
  }

  lemma RoundTrip(meta: ByteString, sections: seq<Section>, m: Metadata.Metadata, es: seq<(ByteString, ByteString)>,
                  name: ByteString, file: ByteString, o: Opened)
    requires Prints(meta, m, es) && Storable(meta, sections)
    requires file == File(meta, sections) && o == OpenedOf(meta, sections)
    ensures Open(file) == Some(o) && Validates(file, o) && o.metadata == m
    ensures ReadSection(file, o, name) == Named(sections, name)
  {
    WrittenFileOpens(meta, sections);
    WrittenFileValidates(meta, sections);
    MetadataComesBack(m, es);
    ReadsNamed(meta, sections, name);
  }
}
