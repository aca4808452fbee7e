/** A written artifact file is read back exactly, its parts are in order, and damage to it is found. */
module ArtifactTheorems {
  import opened Bytes
  import opened Container
  import opened Artifact
  import Crc64
  import Metadata

  // ---------------------------------------------------------------- the layout

  /** Earlier parts of the body stay where they are. */
  lemma {:induction false} BodyGrows(meta: ByteString, sections: seq<Section>, i: nat, j: nat)
    requires i <= j <= |sections|
    ensures |Body(meta, sections, i)| <= |Body(meta, sections, j)|
    ensures Body(meta, sections, j)[..|Body(meta, sections, i)|] == Body(meta, sections, i)
    decreases j
  {
    if i < j { BodyGrows(meta, sections, i, j - 1); }
  }

  /** A section's bytes are at its offset. */
  lemma SectionInBody(meta: ByteString, sections: seq<Section>, i: nat)
    requires i < |sections|
    ensures var b := Body(meta, sections, |sections|);
      var at := Offset(meta, sections, i) - HEADER_SIZE;
      0 <= at && at + |sections[i].data| <= |b| && b[at..at + |sections[i].data|] == sections[i].data
  {
    BodyGrows(meta, sections, i + 1, |sections|);
    var b, part := Body(meta, sections, |sections|), Body(meta, sections, i + 1);
    var at, n := Offset(meta, sections, i) - HEADER_SIZE, |sections[i].data|;
    assert part[at..at + n] == sections[i].data;
    assert b[at..at + n] == b[..|part|][at..at + n];
  }

  lemma EndOfSection(meta: ByteString, sections: seq<Section>, i: nat)
    requires i < |sections|
    ensures HEADER_SIZE + |Body(meta, sections, i)| <= Offset(meta, sections, i)
    ensures Offset(meta, sections, i) + |sections[i].data| == HEADER_SIZE + |Body(meta, sections, i + 1)|
    ensures Offset(meta, sections, i) % ALIGNMENT == 0
  {
  }

  lemma TableIsLast(meta: ByteString, sections: seq<Section>)
    ensures HEADER_SIZE + |Body(meta, sections, |sections|)| <= TableOffset(meta, sections)
    ensures TableOffset(meta, sections) % ALIGNMENT == 0
    ensures TableOffset(meta, sections) + |sections| * ENTRY_SIZE + FOOTER_SIZE == HeaderOf(meta, sections).total
  {
  }

  /** Header, metadata, sections, table and footer follow one another without overlap; sections and table are aligned. */
  lemma LayoutIsOrdered(meta: ByteString, sections: seq<Section>, i: nat)
    requires i < |sections|
    ensures Offset(meta, sections, i) % ALIGNMENT == 0 && TableOffset(meta, sections) % ALIGNMENT == 0
    ensures HEADER_SIZE + |meta| <= Offset(meta, sections, i)
    ensures Offset(meta, sections, i) + |sections[i].data| <=
      if i + 1 < |sections| then Offset(meta, sections, i + 1) else TableOffset(meta, sections)
    ensures TableOffset(meta, sections) + |sections| * ENTRY_SIZE + FOOTER_SIZE == HeaderOf(meta, sections).total
  {
    EndOfSection(meta, sections, i);
    TableIsLast(meta, sections);
    BodyGrows(meta, sections, 0, i);
    if i + 1 < |sections| { EndOfSection(meta, sections, i + 1); }
  }

  lemma OffsetBound(meta: ByteString, sections: seq<Section>, i: nat)
    requires i < |sections|
    ensures Offset(meta, sections, i) + |sections[i].data| <= TableOffset(meta, sections) <= HeaderOf(meta, sections).total
  {
    EndOfSection(meta, sections, i);
    TableIsLast(meta, sections);
    BodyGrows(meta, sections, i + 1, |sections|);
  }

  // ---------------------------------------------------------------- pieces of the file

  lemma {:induction false} TableThen(entries: seq<Entry>, rest: ByteString)
    requires NamesFilled(entries)
    ensures TableText(entries, rest) == TableText(entries, []) + rest
    decreases |entries|
  {
    if entries == [] {
      assert [] + rest == rest;
    } else {
      TableThen(entries[1..], rest);
      EntryThen(entries[0], TableText(entries[1..], []), rest);
    }
  }

  lemma {:induction false} TableLength(entries: seq<Entry>, rest: ByteString)
    requires NamesFilled(entries)
    ensures |TableText(entries, rest)| == |entries| * ENTRY_SIZE + |rest|
    decreases |entries|
  {
    if entries != [] { TableLength(entries[1..], rest); }
  }

  lemma EntryThen(e: Entry, a: ByteString, rest: ByteString)
    requires |e.name| == NAME_SIZE
    ensures EntryText(e, a + rest) == EntryText(e, a) + rest
  {
    var s4 := U64(e.checksum) + a;
    var s3 := U64(e.size) + s4;
    var s2 := U64(e.offset) + s3;
    var s1 := U32(e.flags) + s2;
    var s0 := U32(e.tag) + s1;
    Assoc(U64(e.checksum), a, rest);
    Assoc(U64(e.size), s4, rest);
    Assoc(U64(e.offset), s3, rest);
    Assoc(U32(e.flags), s2, rest);
    Assoc(U32(e.tag), s1, rest);
    Assoc(e.name, s0, rest);
  }

  lemma HeaderThen(h: Header, a: ByteString, rest: ByteString)
    requires |h.magic| == 8
    ensures HeaderText(h, a + rest) == HeaderText(h, a) + rest
  {
    var s9 := U64(h.total) + a;
    var s8 := U64(h.tableSize) + s9;
    var s7 := U64(h.tableOffset) + s8;
    var s6 := U64(h.metaSize) + s7;
    var s5 := U64(h.metaOffset) + s6;
    var s4 := U32(h.count) + s5;
    var s3 := U32(h.flags) + s4;
    var s2 := U32(h.headerSize) + s3;
    var s1 := U32(h.version) + s2;
    Assoc(U64(h.total), a, rest);
    Assoc(U64(h.tableSize), s9, rest);
    Assoc(U64(h.tableOffset), s8, rest);
    Assoc(U64(h.metaSize), s7, rest);
    Assoc(U64(h.metaOffset), s6, rest);
    Assoc(U32(h.count), s5, rest);
    Assoc(U32(h.flags), s4, rest);
    Assoc(U32(h.headerSize), s3, rest);
    Assoc(U32(h.version), s2, rest);
    Assoc(h.magic, s1, rest);
  }

  lemma HeaderLast(h: Header, rest: ByteString)
    requires |h.magic| == 8
    ensures HeaderText(h, rest)[HEADER_SIZE..] == rest
  {
    HeaderThen(h, [], rest);
    assert [] + rest == rest;
  }

  /** A header, three parts and a rest: where each is. */
  lemma PartsAt(h: Header, b: ByteString, zeros: ByteString, table: ByteString, rest: ByteString)
    requires |h.magic| == 8
    ensures var f := HeaderText(h, b + (zeros + (table + rest)));
      var body := HeaderText(h, b + (zeros + table));
      && f == body + rest && |body| == HEADER_SIZE + |b| + |zeros| + |table|
      && f[HEADER_SIZE..HEADER_SIZE + |b|] == b
      && f[HEADER_SIZE + |b| + |zeros|..HEADER_SIZE + |b| + |zeros| + |table|] == table
  {
    Assoc(zeros, table, rest);
    Assoc(b, zeros + table, rest);
    HeaderThen(h, b + (zeros + table), rest);
    HeaderLast(h, b + (zeros + (table + rest)));
    ThreeParts(HeaderText(h, b + (zeros + (table + rest))), b, zeros, table, rest);
  }

  lemma ThreeParts(c: ByteString, b: ByteString, zeros: ByteString, table: ByteString, rest: ByteString)
    requires |c| >= HEADER_SIZE && c[HEADER_SIZE..] == b + (zeros + (table + rest))
    ensures c[HEADER_SIZE..HEADER_SIZE + |b|] == b
    ensures c[HEADER_SIZE + |b| + |zeros|..HEADER_SIZE + |b| + |zeros| + |table|] == table
  {
    var tail, n := c[HEADER_SIZE..], |b| + |zeros|;
    assert c[HEADER_SIZE..HEADER_SIZE + |b|] == tail[..|b|];
    assert c[HEADER_SIZE + n..HEADER_SIZE + n + |table|] == tail[n..n + |table|];
  }

  // ---------------------------------------------------------------- a written file opens

  /** Everything fits the widths of its fields. */
  ghost predicate Storable(meta: ByteString, sections: seq<Section>) {
    && ShortNames(sections) && |sections| < TWO_32 && HeaderOf(meta, sections).total < TWO_64
    && forall i :: 0 <= i < |sections| ==> sections[i].tag < TWO_32 && sections[i].flags < TWO_32
  }

  lemma DigestFits(data: ByteString)
    ensures Digest(data) < TWO_64
  {
    Crc64.ValueBound(Crc64.Checksum(data));
    Crc64.TopWeight();
    assert Crc64.Pow2(64) == 2 * Crc64.Pow2(63);
  }

  ghost predicate AllFit(entries: seq<Entry>) { forall i :: 0 <= i < |entries| ==> entries[i].Fits() }

  lemma EntryFits(meta: ByteString, sections: seq<Section>, i: nat)
    requires Storable(meta, sections) && i < |sections|
    ensures EntryOf(meta, sections, i).Fits()
  {
    OffsetBound(meta, sections, i);
    DigestFits(sections[i].data);
  }

  lemma {:induction false} EntryAt(meta: ByteString, sections: seq<Section>, n: nat, i: nat)
    requires ShortNames(sections) && i < n <= |sections|
    ensures Entries(meta, sections, n)[i] == EntryOf(meta, sections, i)
  {
    if i < n - 1 { EntryAt(meta, sections, n - 1, i); }
  }

  lemma ReadsEntry(e: Entry, rest: ByteString, n: nat)
    requires e.Fits() && |rest| >= n * ENTRY_SIZE
    ensures ReadTable(EntryText(e, rest), n + 1) == [e] + ReadTable(rest, n)
  {
    EntryRoundTrip(e, rest);
  }

  lemma ReadsFirst(entries: seq<Entry>, rest: ByteString)
    requires entries != [] && NamesFilled(entries) && entries[0].Fits() && rest == TableText(entries[1..], [])
    requires |rest| >= (|entries| - 1) * ENTRY_SIZE && ReadTable(rest, |entries| - 1) == entries[1..]
    ensures |TableText(entries, [])| >= |entries| * ENTRY_SIZE && ReadTable(TableText(entries, []), |entries|) == entries
  {
    TableUncons(entries, rest);
    ReadsEntry(entries[0], rest, |entries| - 1);
    Uncons(entries);
  }

  lemma TableUncons(entries: seq<Entry>, rest: ByteString)
    requires entries != [] && NamesFilled(entries) && rest == TableText(entries[1..], [])
    ensures TableText(entries, []) == EntryText(entries[0], rest)
  {
  }

  lemma Uncons(entries: seq<Entry>)
    requires entries != []
    ensures [entries[0]] + entries[1..] == entries
  {
  }

  lemma {:induction false} TableRoundTrip(entries: seq<Entry>)
    requires NamesFilled(entries) && AllFit(entries)
    ensures |TableText(entries, [])| == |entries| * ENTRY_SIZE
    ensures ReadTable(TableText(entries, []), |entries|) == entries
    decreases |entries|
  {
    TableLength(entries, []);
    if entries != [] {
      TableRoundTrip(entries[1..]);
      ReadsFirst(entries, TableText(entries[1..], []));
    }
  }

  lemma HeaderFits(meta: ByteString, sections: seq<Section>)
    requires Storable(meta, sections)
    ensures HeaderOf(meta, sections).Fits()
  {
    TableIsLast(meta, sections);
    BodyGrows(meta, sections, 0, |sections|);
  }

  lemma EntryEnd(meta: ByteString, sections: seq<Section>, i: nat, e: Entry)
    requires i < |sections| && |sections[i].name| < NAME_SIZE && e == EntryOf(meta, sections, i)
    ensures e.offset == Offset(meta, sections, i) && e.size == |sections[i].data|
  {
  }

  lemma NoWrap(a: nat, b: nat, total: nat)
    requires a + b <= total < TWO_64
    ensures Add64(a, b) <= total
  {
  }

  lemma EntriesInBounds(meta: ByteString, sections: seq<Section>)
    requires Storable(meta, sections)
    ensures AllFit(Entries(meta, sections, |sections|))
    ensures InBounds(Entries(meta, sections, |sections|), HeaderOf(meta, sections).total)
  {
    var entries, total := Entries(meta, sections, |sections|), HeaderOf(meta, sections).total;
    forall i | 0 <= i < |entries|
      ensures entries[i].Fits() && Add64(entries[i].offset, entries[i].size) <= total
    {
      EntryAt(meta, sections, |sections|, i);
      EntryFits(meta, sections, i);
      EntryEnd(meta, sections, i, entries[i]);
      OffsetBound(meta, sections, i);
      NoWrap(entries[i].offset, entries[i].size, total);
    }
  }

  /** What is where in a file. */
  ghost predicate Laid(f: ByteString, h: Header, checksum: nat, meta: ByteString, entries: seq<Entry>) {
    && HEADER_SIZE + FOOTER_SIZE <= |f| < TWO_64 && NamesFilled(entries)
    && ParseHeader(f) == h && h.magic == Magic() && h.version == 1 && h.headerSize == HEADER_SIZE && h.total == |f|
    && ParseFooter(f[|f| - FOOTER_SIZE..]) == Footer(checksum, FooterMagic())
    && h.metaSize == |meta| && ReadAt(f, h.metaOffset, h.metaSize) == Some(meta)
    && h.count == |entries| && h.tableSize == |entries| * ENTRY_SIZE
    && ReadAt(f, h.tableOffset, |entries| * ENTRY_SIZE) == Some(TableText(entries, []))
  }

  lemma EndsOpen(f: ByteString, h: Header, footer: Footer)
    requires |f| >= HEADER_SIZE + FOOTER_SIZE && ParseHeader(f) == h && ParseFooter(f[|f| - FOOTER_SIZE..]) == footer
    requires h.magic == Magic() && h.version == 1 && h.headerSize == HEADER_SIZE && h.total == |f|
    requires footer.magic == FooterMagic()
    ensures OpenEnds(f) == Some((h, footer))
  {
  }

  lemma MetaOpens(f: ByteString, h: Header, meta: ByteString)
    requires |f| < TWO_64 && h.metaSize == |meta| && ReadAt(f, h.metaOffset, h.metaSize) == Some(meta)
    ensures OpenMeta(f, h) == Some(meta)
  {
  }

  lemma LaidEnds(f: ByteString, h: Header, checksum: nat, meta: ByteString, entries: seq<Entry>)
    requires Laid(f, h, checksum, meta, entries)
    ensures OpenEnds(f) == Some((h, Footer(checksum, FooterMagic()))) && OpenMeta(f, h) == Some(meta)
  {
    EndsOpen(f, h, Footer(checksum, FooterMagic()));
    MetaOpens(f, h, meta);
  }

  lemma TableOpens(f: ByteString, h: Header, entries: seq<Entry>, table: ByteString)
    requires |f| < TWO_64 && h.count == |entries| && h.tableSize == |entries| * ENTRY_SIZE
    requires ReadAt(f, h.tableOffset, |entries| * ENTRY_SIZE) == Some(table)
    requires ReadTable(table, |entries|) == entries && InBounds(entries, |f|)
    ensures OpenTable(f, h) == Some(entries)
  {
  }

  lemma LaidTable(f: ByteString, h: Header, checksum: nat, meta: ByteString, entries: seq<Entry>)
    requires Laid(f, h, checksum, meta, entries) && AllFit(entries) && InBounds(entries, |f|)
    ensures OpenTable(f, h) == Some(entries)
  {
    TableRoundTrip(entries);
    TableOpens(f, h, entries, TableText(entries, []));
  }

  lemma LaidOpens(f: ByteString, h: Header, checksum: nat, meta: ByteString, entries: seq<Entry>)
    requires Laid(f, h, checksum, meta, entries) && AllFit(entries) && InBounds(entries, |f|)
    ensures Open(f) == Some(Opened(h, Footer(checksum, FooterMagic()), meta, MetadataOf(meta), entries))
  {
    LaidEnds(f, h, checksum, meta, entries);
    LaidTable(f, h, checksum, meta, entries);
  }

  lemma FileIs(meta: ByteString, sections: seq<Section>, h: Header, b: ByteString, zeros: ByteString, entries: seq<Entry>,
               footer: ByteString)
    requires ShortNames(sections) && h == HeaderOf(meta, sections) && b == Body(meta, sections, |sections|)
    requires zeros == Zeros(Pad(HEADER_SIZE + |b|)) && entries == Entries(meta, sections, |sections|)
    requires footer == FooterText(Digest(Contents(meta, sections, [])))
    ensures File(meta, sections) == HeaderText(h, b + (zeros + (TableText(entries, []) + footer)))
  {
    TableThen(entries, footer);
  }

  lemma MetaIsFirst(meta: ByteString, sections: seq<Section>, b: ByteString)
    requires b == Body(meta, sections, |sections|)
    ensures |meta| <= |b| && b[..|meta|] == meta
  {
    BodyGrows(meta, sections, 0, |sections|);
  }

  /** The parts of a written file are where its header says. */
  lemma FileIsLaid(meta: ByteString, sections: seq<Section>)
    requires Storable(meta, sections)
    ensures Laid(File(meta, sections), HeaderOf(meta, sections), Digest(Contents(meta, sections, [])), meta,
                 Entries(meta, sections, |sections|))
  {
    var entries, h := Entries(meta, sections, |sections|), HeaderOf(meta, sections);
    var b, checksum := Body(meta, sections, |sections|), Digest(Contents(meta, sections, []));
    var zeros := Zeros(Pad(HEADER_SIZE + |b|));
    FileIs(meta, sections, h, b, zeros, entries, FooterText(checksum));
    TableLength(entries, []);
    HeaderFits(meta, sections);
    DigestFits(Contents(meta, sections, []));
    MetaIsFirst(meta, sections, b);
    HeaderMatches(meta, sections, h, b, zeros);
    PartsAreLaid(File(meta, sections), h, b, zeros, entries, checksum, meta);
  }

  lemma HeaderMatches(meta: ByteString, sections: seq<Section>, h: Header, b: ByteString, zeros: ByteString)
    requires h == HeaderOf(meta, sections) && b == Body(meta, sections, |sections|) && zeros == Zeros(Pad(HEADER_SIZE + |b|))
    ensures h.magic == Magic() && h.version == 1 && h.headerSize == HEADER_SIZE && h.metaOffset == HEADER_SIZE && h.metaSize == |meta|
    ensures h.count == |sections| && h.tableSize == |sections| * ENTRY_SIZE
    ensures h.tableOffset == HEADER_SIZE + |b| + |zeros| && h.total == h.tableOffset + h.tableSize + FOOTER_SIZE
  {
  }

  lemma PartsAreLaid(f: ByteString, h: Header, b: ByteString, zeros: ByteString, entries: seq<Entry>, checksum: nat, meta: ByteString)
    requires h.Fits() && h.magic == Magic() && h.version == 1 && h.headerSize == HEADER_SIZE && NamesFilled(entries)
    requires f == HeaderText(h, b + (zeros + (TableText(entries, []) + FooterText(checksum)))) && checksum < TWO_64
    requires h.metaOffset == HEADER_SIZE && h.metaSize == |meta| <= |b| && b[..|meta|] == meta
    requires h.count == |entries| && h.tableSize == |entries| * ENTRY_SIZE == |TableText(entries, [])|
    requires h.tableOffset == HEADER_SIZE + |b| + |zeros| && h.total == h.tableOffset + h.tableSize + FOOTER_SIZE
    ensures Laid(f, h, checksum, meta, entries)
  {
    var table, footer := TableText(entries, []), FooterText(checksum);
    PartsAt(h, b, zeros, table, footer);
    HeaderRoundTrip(h, b + (zeros + (table + footer)));
    EndsWithFooter(f, HeaderText(h, b + (zeros + table)), checksum);
    StartOfSlice(f, HEADER_SIZE, b, meta);
  }

  lemma EndsWithFooter(f: ByteString, body: ByteString, checksum: nat)
    requires f == body + FooterText(checksum) && checksum < TWO_64
    ensures f[..|f| - FOOTER_SIZE] == body
    ensures ParseFooter(f[|f| - FOOTER_SIZE..]) == Footer(checksum, FooterMagic())
  {
    FooterRoundTrip(checksum);
    assert f[|f| - FOOTER_SIZE..] == FooterText(checksum);
  }

  lemma StartOfSlice(f: ByteString, at: nat, b: ByteString, start: ByteString)
    requires at + |b| <= |f| && f[at..at + |b|] == b && |start| <= |b| && b[..|start|] == start
    ensures f[at..at + |start|] == start
  {
    assert f[at..at + |start|] == f[at..at + |b|][..|start|];
  }

  /** What opening a written file yields. */
  ghost function OpenedOf(meta: ByteString, sections: seq<Section>): Opened
    requires ShortNames(sections)
  {
    Opened(HeaderOf(meta, sections), Footer(Digest(Contents(meta, sections, [])), FooterMagic()), meta, MetadataOf(meta),
           Entries(meta, sections, |sections|))
  }

  lemma BodyValidates(f: ByteString, body: ByteString, o: Opened)
    requires o.header.total == |f| >= FOOTER_SIZE && f[..|f| - FOOTER_SIZE] == body && o.footer.checksum == Digest(body)
    ensures Validates(f, o)
  {
  }

  lemma LaidFits(f: ByteString, h: Header, checksum: nat, meta: ByteString, entries: seq<Entry>)
    requires Laid(f, h, checksum, meta, entries)
    ensures h.total == |f| >= FOOTER_SIZE
  {
  }

  /** A written file opens, with its metadata and section table. */
  lemma WrittenFileOpens(meta: ByteString, sections: seq<Section>)
    requires Storable(meta, sections)
    ensures Open(File(meta, sections)) == Some(OpenedOf(meta, sections))
  {
    var f, o := File(meta, sections), OpenedOf(meta, sections);
    FileIsLaid(meta, sections);
    EntriesInBounds(meta, sections);
    LaidFits(f, o.header, o.footer.checksum, meta, o.entries);
    LaidOpens(f, o.header, o.footer.checksum, meta, o.entries);
  }

  /** The contents are followed by what is to follow. */
  lemma ContentsThen(meta: ByteString, sections: seq<Section>, rest: ByteString)
    requires ShortNames(sections)
    ensures Contents(meta, sections, rest) == Contents(meta, sections, []) + rest
    ensures |Contents(meta, sections, [])| == HeaderOf(meta, sections).total - FOOTER_SIZE
  {
    var b, entries := Body(meta, sections, |sections|), Entries(meta, sections, |sections|);
    TableThen(entries, rest);
    TableLength(entries, []);
    PartsAt(HeaderOf(meta, sections), b, Zeros(Pad(HEADER_SIZE + |b|)), TableText(entries, []), rest);
  }

  lemma FileShape(meta: ByteString, sections: seq<Section>, f: ByteString, body: ByteString)
    requires ShortNames(sections) && f == File(meta, sections) && body == Contents(meta, sections, [])
    ensures HeaderOf(meta, sections).total == |f| >= FOOTER_SIZE && f[..|f| - FOOTER_SIZE] == body
  {
    ContentsThen(meta, sections, FooterText(Digest(body)));
  }

  /** And it validates. */
  lemma WrittenFileValidates(meta: ByteString, sections: seq<Section>)
    requires Storable(meta, sections)
    ensures Validates(File(meta, sections), OpenedOf(meta, sections))
  {
    FileShape(meta, sections, File(meta, sections), Contents(meta, sections, []));
    BodyValidates(File(meta, sections), Contents(meta, sections, []), OpenedOf(meta, sections));
  }

  // ---------------------------------------------------------------- sections by name

  ghost predicate NulFree(name: ByteString) { forall i :: 0 <= i < |name| ==> name[i] != 0 }

  ghost predicate Distinct(sections: seq<Section>) {
    forall i, j :: 0 <= i < j < |sections| ==> sections[i].name != sections[j].name
  }

  /** A name without zeros is read back from its field. */
  lemma {:induction false} NameReadsBack(name: ByteString, zeros: ByteString)
    requires NulFree(name) && zeros != [] && zeros[0] == 0
    ensures NameOf(name + zeros) == name
  {
    if name == [] {
      assert name + zeros == zeros;
    } else {
      assert (name + zeros)[1..] == name[1..] + zeros;
      NameReadsBack(name[1..], zeros);
      assert [name[0]] + name[1..] == name;
    }
  }

  lemma NameRoundTrip(name: ByteString)
    requires NulFree(name) && |name| < NAME_SIZE
    ensures NameOf(NameField(name)) == name
  {
    NameReadsBack(name, Zeros(NAME_SIZE - |name|));
  }

  /** What the reader calls a section: its name, up to the first zero. */
  function KnownAs(name: ByteString): ByteString
    requires |name| < NAME_SIZE
  {
    NameOf(NameField(name))
  }

  /** The last of the first `n` sections known by this name, or -1. */
  function LastNamed(sections: seq<Section>, n: nat, name: ByteString): (j: int)
    requires ShortNames(sections) && n <= |sections|
    ensures -1 <= j < n && (j >= 0 ==> KnownAs(sections[j].name) == name)
    ensures forall k :: j < k < n ==> KnownAs(sections[k].name) != name
  {
    if n == 0 then -1
    else if KnownAs(sections[n - 1].name) == name then n - 1
    else LastNamed(sections, n - 1, name)
  }

  /** The bytes that reading by a name yields. */
  function Named(sections: seq<Section>, name: ByteString): Option<ByteString>
    requires ShortNames(sections)
  {
    var j := LastNamed(sections, |sections|, name);
    if j < 0 then None else Some(sections[j].data)
  }

  /** The reader's index sends each name to the last section known by it. */
  lemma {:induction false} IndexIsLast(meta: ByteString, sections: seq<Section>, n: nat, name: ByteString)
    requires ShortNames(sections) && n <= |sections|
    ensures var index := IndexOf(Entries(meta, sections, n));
      && (name in index <==> LastNamed(sections, n, name) >= 0)
      && (name in index ==> index[name] == LastNamed(sections, n, name))
  {
    if n > 0 {
      IndexIsLast(meta, sections, n - 1, name);
      var entries := Entries(meta, sections, n);
      assert entries[..n - 1] == Entries(meta, sections, n - 1);
      assert entries[n - 1].name == NameField(sections[n - 1].name);
    }
  }

  ghost predicate AllNulFree(sections: seq<Section>) {
    forall i :: 0 <= i < |sections| ==> NulFree(sections[i].name)
  }

  lemma FileBody(meta: ByteString, sections: seq<Section>, f: ByteString, b: ByteString)
    requires Storable(meta, sections) && f == File(meta, sections) && b == Body(meta, sections, |sections|)
    ensures HEADER_SIZE + |b| <= |f| && f[HEADER_SIZE..HEADER_SIZE + |b|] == b
  {
    var entries, h := Entries(meta, sections, |sections|), HeaderOf(meta, sections);
    var footer := FooterText(Digest(Contents(meta, sections, [])));
    TableThen(entries, footer);
    PartsAt(h, b, Zeros(Pad(HEADER_SIZE + |b|)), TableText(entries, []), footer);
  }

  /** The bytes of a section, in the file. */
  lemma SectionInFile(meta: ByteString, sections: seq<Section>, i: nat, f: ByteString, b: ByteString)
    requires i < |sections| && b == Body(meta, sections, |sections|)
    requires HEADER_SIZE + |b| <= |f| && f[HEADER_SIZE..HEADER_SIZE + |b|] == b
    ensures ReadAt(f, Offset(meta, sections, i), |sections[i].data|) == Some(sections[i].data)
  {
    SectionInBody(meta, sections, i);
    SliceOfBody(f, b, Offset(meta, sections, i), sections[i].data);
  }

  lemma SliceOfBody(f: ByteString, b: ByteString, at: nat, data: ByteString)
    requires HEADER_SIZE + |b| <= |f| && f[HEADER_SIZE..HEADER_SIZE + |b|] == b
    requires HEADER_SIZE <= at && at - HEADER_SIZE + |data| <= |b| && b[at - HEADER_SIZE..at - HEADER_SIZE + |data|] == data
    ensures ReadAt(f, at, |data|) == Some(data)
  {
    var k := at - HEADER_SIZE;
    assert f[at..at + |data|] == f[HEADER_SIZE..HEADER_SIZE + |b|][k..k + |data|];
  }

  lemma SectionReads(f: ByteString, o: Opened, name: ByteString, i: nat, data: ByteString)
    requires i < |o.entries| && name in IndexOf(o.entries) && IndexOf(o.entries)[name] == i
    requires o.entries[i].size == |data| && ReadAt(f, o.entries[i].offset, |data|) == Some(data)
    requires data != [] ==> o.entries[i].checksum == Digest(data)
    ensures ReadSection(f, o, name) == Some(data)
  {
  }

  lemma NamedInLaid(meta: ByteString, sections: seq<Section>, name: ByteString, f: ByteString, b: ByteString, o: Opened)
    requires ShortNames(sections) && o.entries == Entries(meta, sections, |sections|)
    requires b == Body(meta, sections, |sections|) && HEADER_SIZE + |b| <= |f| && f[HEADER_SIZE..HEADER_SIZE + |b|] == b
    ensures ReadSection(f, o, name) == Named(sections, name)
  {
    IndexIsLast(meta, sections, |sections|, name);
    var j := LastNamed(sections, |sections|, name);
    if j >= 0 {
      EntryAt(meta, sections, |sections|, j);
      SectionInFile(meta, sections, j, f, b);
      SectionReads(f, o, name, j, sections[j].data);
    }
  }

  /** By any name, the reader of a written file gets the bytes of the last section known by it. */
  lemma ReadsNamed(meta: ByteString, sections: seq<Section>, name: ByteString)
    requires Storable(meta, sections)
    ensures ReadSection(File(meta, sections), OpenedOf(meta, sections), name) == Named(sections, name)
  {
    var f, b := File(meta, sections), Body(meta, sections, |sections|);
    FileBody(meta, sections, f, b);
    NamedInLaid(meta, sections, name, f, b, OpenedOf(meta, sections));
  }

  /** Section `j` is the last one known by this name. */
  ghost predicate IsLastNamed(sections: seq<Section>, name: ByteString, j: nat)
    requires ShortNames(sections)
  {
    && j < |sections| && KnownAs(sections[j].name) == name
    && forall k :: j < k < |sections| ==> KnownAs(sections[k].name) != name
  }

  /** The last section known by section `i`'s name holds the same bytes. */
  ghost predicate LastIsAlike(sections: seq<Section>, i: nat)
    requires ShortNames(sections) && i < |sections|
  {
    forall j: nat :: IsLastNamed(sections, sections[i].name, j) ==> sections[j].data == sections[i].data
  }

  lemma KnownIsNulFree(name: ByteString)
    requires |name| < NAME_SIZE
    ensures NulFree(name) <==> KnownAs(name) == name
  {
    if NulFree(name) { NameRoundTrip(name); }
  }

  lemma LastIsUnique(sections: seq<Section>, name: ByteString)
    requires ShortNames(sections)
    ensures forall j: nat :: IsLastNamed(sections, name, j) <==> j == LastNamed(sections, |sections|, name)
  {
    var last := LastNamed(sections, |sections|, name);
    forall j: nat | IsLastNamed(sections, name, j)
      ensures j == last
    {
      assert !(last < j) && !(j < last);
    }
  }

  /**
    A section comes back by its name if and only if that name holds no zero byte and the last section known by it, which may
    be another one whose name goes on after a zero, holds the same bytes.
   */
  lemma SectionComesBackIff(meta: ByteString, sections: seq<Section>, i: nat)
    requires Storable(meta, sections) && i < |sections|
    ensures ReadSection(File(meta, sections), OpenedOf(meta, sections), sections[i].name) == Some(sections[i].data) <==>
      NulFree(sections[i].name) && LastIsAlike(sections, i)
  {
    var name := sections[i].name;
    ReadsNamed(meta, sections, name);
    KnownIsNulFree(name);
    LastIsUnique(sections, name);
    var last := LastNamed(sections, |sections|, name);
    if last >= 0 {
      assert IsLastNamed(sections, name, last);
      assert NulFree(KnownAs(sections[last].name));
    }
  }

  /** If no name holds a zero byte, these are the bytes of every section so named. */
  ghost predicate OwnBytes(sections: seq<Section>, name: ByteString, data: Option<ByteString>) {
    AllNulFree(sections) ==>
      forall i :: 0 <= i < |sections| && sections[i].name == name ==> data == Some(sections[i].data)
  }

  lemma NamedIsOwn(sections: seq<Section>, name: ByteString)
    requires ShortNames(sections) && Distinct(sections)
    ensures OwnBytes(sections, name, Named(sections, name))
  {
    if AllNulFree(sections) {
      forall j | 0 <= j < |sections|
        ensures KnownAs(sections[j].name) == sections[j].name
      {
        KnownIsNulFree(sections[j].name);
      }
    }
  }

  /** So every section comes back, if no name holds a zero byte. */
  lemma SectionRoundTrip(meta: ByteString, sections: seq<Section>, i: nat)
    requires Storable(meta, sections) && Distinct(sections) && AllNulFree(sections) && i < |sections|
    ensures ReadSection(File(meta, sections), OpenedOf(meta, sections), sections[i].name) == Some(sections[i].data)
  {
    NamedIsOwn(sections, sections[i].name);
    ReadsNamed(meta, sections, sections[i].name);
  }

  lemma ShadowingName()
    ensures KnownAs([97, 0, 98]) == [97]
  {
    var field := NameField([97, 0, 98]);
    assert field[0] == 97 && field[1..][0] == 0;
    assert NameOf(field[1..]) == [];
  }

  /** Two sections, "a" and then "a", zero, "b". */
  ghost predicate Shadowed(sections: seq<Section>) {
    |sections| == 2 && sections[0].name == [97] && sections[1].name == [97, 0, 98]
  }

  lemma SecondIsNamed(sections: seq<Section>)
    requires Shadowed(sections)
    ensures ShortNames(sections) && Distinct(sections) && Named(sections, sections[0].name) == Some(sections[1].data)
  {
    ShadowingName();
  }

  lemma ReadsAs(meta: ByteString, sections: seq<Section>, name: ByteString, data: ByteString)
    requires Storable(meta, sections) && Named(sections, name) == Some(data)
    ensures ReadSection(File(meta, sections), OpenedOf(meta, sections), name) == Some(data)
  {
    ReadsNamed(meta, sections, name);
  }

  /** An instance: the name of the first of these sections reads the second. */
  lemma ShadowedSection(meta: ByteString, sections: seq<Section>)
    requires Storable(meta, sections) && Shadowed(sections)
    ensures ReadSection(File(meta, sections), OpenedOf(meta, sections), sections[0].name) == Some(sections[1].data)
  {
    SecondIsNamed(sections);
    ReadsAs(meta, sections, sections[0].name, sections[1].data);
  }

  /** An accepted name is known to the reader if and only if it holds no zero byte. */
  lemma NameIsFoundIff(meta: ByteString, sections: seq<Section>, i: nat)
    requires ShortNames(sections) && i < |sections|
    ensures sections[i].name in IndexOf(Entries(meta, sections, |sections|)) <==> NulFree(sections[i].name)
  {
    IndexIsLast(meta, sections, |sections|, sections[i].name);
    KnownIsNulFree(sections[i].name);
    var last := LastNamed(sections, |sections|, sections[i].name);
    if last >= 0 { assert NulFree(KnownAs(sections[last].name)); }
  }

  /** Printed metadata comes back through the file. */
  lemma MetadataComesBack(m: Metadata.Metadata, es: seq<(ByteString, ByteString)>)
    requires Metadata.Walks(es, m.properties)
    ensures MetadataOf(Metadata.Text(m, es)) == m
  {
    Metadata.MetadataRoundTrip(m, es);
  }

  // ---------------------------------------------------------------- damage

  /** The two files differ, and only between `lo` and `hi`. */
  ghost predicate DamagedWithin(f: ByteString, g: ByteString, lo: nat, hi: nat) {
    lo <= hi <= |f| == |g| && f != g && f[..lo] == g[..lo] && f[hi..] == g[hi..]
  }

  /** The file opens and its checksum is right. */
  ghost predicate Accepted(f: ByteString) {
    Open(f).Some? && Validates(f, Open(f).value)
  }

  ghost predicate SealedBy(footer: Footer, body: ByteString) {
    footer.checksum == Digest(body) && footer.magic == FooterMagic()
  }

  /** The footer holds the checksum of everything before it. */
  ghost predicate Sealed(f: ByteString) {
    && |f| >= FOOTER_SIZE
    && SealedBy(ParseFooter(f[|f| - FOOTER_SIZE..]), f[..|f| - FOOTER_SIZE])
  }

  /** What `open` has checked of the two ends. */
  ghost predicate EndsChecked(f: ByteString, h: Header, footer: Footer) {
    && |f| >= HEADER_SIZE + FOOTER_SIZE && h.total == |f|
    && footer == ParseFooter(f[|f| - FOOTER_SIZE..]) && footer.magic == FooterMagic()
  }

  lemma OpenChecksEnds(f: ByteString)
    requires OpenEnds(f).Some?
    ensures EndsChecked(f, OpenEnds(f).value.0, OpenEnds(f).value.1)
  {
  }

  lemma OpenKeepsEnds(f: ByteString)
    requires Open(f).Some?
    ensures OpenEnds(f) == Some((Open(f).value.header, Open(f).value.footer))
  {
  }

  lemma ValidIsSealed(f: ByteString, o: Opened)
    requires EndsChecked(f, o.header, o.footer) && Validates(f, o)
    ensures Sealed(f)
  {
    ValidMeans(f, o, f[..|f| - FOOTER_SIZE]);
    assert SealedBy(o.footer, f[..|f| - FOOTER_SIZE]);
  }

  lemma ValidMeans(f: ByteString, o: Opened, body: ByteString)
    requires Validates(f, o) && o.header.total == |f| && body == f[..|f| - FOOTER_SIZE]
    ensures o.footer.checksum == Digest(body)
  {
  }

  lemma AcceptedIsSealed(f: ByteString)
    requires Accepted(f)
    ensures Sealed(f)
  {
    OpenKeepsEnds(f);
    OpenChecksEnds(f);
    ValidIsSealed(f, Open(f).value);
  }

  lemma UnsealedIsRejected(g: ByteString)
    requires !Sealed(g)
    ensures !Accepted(g)
  {
    if Accepted(g) { AcceptedIsSealed(g); }
  }

  lemma DigestInjectiveOnWindows(a: ByteString, b: ByteString, lo: nat, hi: nat)
    requires lo <= hi <= |a| == |b| && hi - lo <= 8 && a[..lo] == b[..lo] && a[hi..] == b[hi..] && a != b
    ensures Digest(a) != Digest(b)
  {
    Crc64.ByteWindowDetected(a, b, lo, hi);
    Crc64.LowBitsOfValue(Crc64.Checksum(a));
    Crc64.LowBitsOfValue(Crc64.Checksum(b));
  }

  lemma BodyDamageUnseals(f: ByteString, g: ByteString, lo: nat, hi: nat)
    requires Sealed(f) && DamagedWithin(f, g, lo, hi) && hi - lo <= 8 && hi + FOOTER_SIZE <= |f|
    ensures !Sealed(g)
  {
    var n := |f| - FOOTER_SIZE;
    BodiesDiffer(f, g, lo, hi, n);
    DigestInjectiveOnWindows(f[..n], g[..n], lo, hi);
    NotSealedBy(ParseFooter(f[n..]), f[..n], g[..n]);
  }

  lemma NotSealedBy(footer: Footer, a: ByteString, b: ByteString)
    requires SealedBy(footer, a) && Digest(a) != Digest(b)
    ensures !SealedBy(footer, b)
  {
  }

  /** Damage to at most eight neighbouring bytes of the body of an acceptable file is found, by `open` or by validation. */
  lemma BodyDamageIsFound(f: ByteString, g: ByteString, lo: nat, hi: nat)
    requires Accepted(f) && DamagedWithin(f, g, lo, hi) && hi - lo <= 8 && hi + FOOTER_SIZE <= |f|
    ensures !Accepted(g)
  {
    AcceptedIsSealed(f);
    BodyDamageUnseals(f, g, lo, hi);
    UnsealedIsRejected(g);
  }

  lemma BodiesDiffer(f: ByteString, g: ByteString, lo: nat, hi: nat, n: nat)
    requires DamagedWithin(f, g, lo, hi) && hi <= n <= |f|
    ensures f[..n] != g[..n] && f[n..] == g[n..]
    ensures f[..n][..lo] == g[..n][..lo] && f[..n][hi..] == g[..n][hi..]
  {
    assert f == f[..n] + f[n..] && g == g[..n] + g[n..];
    assert f[n..] == f[hi..][n - hi..] && g[n..] == g[hi..][n - hi..];
    assert f[..n][..lo] == f[..lo] && g[..n][..lo] == g[..lo];
    assert f[..n][hi..] == f[hi..][..n - hi] && g[..n][hi..] == g[hi..][..n - hi];
  }

  lemma FooterDamageUnseals(f: ByteString, g: ByteString, lo: nat, hi: nat)
    requires Sealed(f) && DamagedWithin(f, g, lo, hi) && |f| - FOOTER_SIZE <= lo
    ensures !Sealed(g)
  {
    var n := |f| - FOOTER_SIZE;
    assert f[..n] == f[..lo][..n] && g[..n] == g[..lo][..n];
    assert f == f[..n] + f[n..] && g == g[..n] + g[n..];
    FooterInjective(f[n..], g[n..]);
  }

  /** So is any damage to the footer alone. */
  lemma FooterDamageIsFound(f: ByteString, g: ByteString, lo: nat, hi: nat)
    requires Accepted(f) && DamagedWithin(f, g, lo, hi) && |f| - FOOTER_SIZE <= lo
    ensures !Accepted(g)
  {
    AcceptedIsSealed(f);
    FooterDamageUnseals(f, g, lo, hi);
    UnsealedIsRejected(g);
  }

  /** A sealed file's footer begins with the bits of the checksum. */
  lemma SealIsChecksum(f: ByteString, body: ByteString, seal: ByteString)
    requires Sealed(f) && body == f[..|f| - FOOTER_SIZE] && seal == f[|f| - FOOTER_SIZE..][..8]
    ensures Crc64.BitsOf(seal) == Crc64.Checksum(body)
  {
    Crc64.BytesOfRegister(Crc64.Checksum(body), seal);
  }

  /** The parts of two files that agree outside a window across the boundary between body and footer. */
  lemma PartsAgree(f: ByteString, g: ByteString, lo: nat, hi: nat, n: nat)
    requires |f| == |g| == n + FOOTER_SIZE && lo <= n <= hi <= n + 8 && f[..lo] == g[..lo] && f[hi..] == g[hi..]
    ensures f[..n][..lo] == g[..n][..lo]
    ensures f[n..][..8][hi - n..] == g[n..][..8][hi - n..] && f[n..][8..] == g[n..][8..]
  {
    assert f[..n][..lo] == f[..lo] && g[..n][..lo] == g[..lo];
    assert f[n..][..8][hi - n..] == f[hi..][..n + 8 - hi] && g[n..][..8][hi - n..] == g[hi..][..n + 8 - hi];
    assert f[n..][8..] == f[hi..][n + 8 - hi..] && g[n..][8..] == g[hi..][n + 8 - hi..];
  }

  lemma SameParts(f: ByteString, g: ByteString, n: nat)
    requires |f| == |g| == n + FOOTER_SIZE && f[..n] == g[..n]
    requires f[n..][..8] == g[n..][..8] && f[n..][8..] == g[n..][8..]
    ensures f == g
  {
    assert f == f[..n] + (f[n..][..8] + f[n..][8..]) && g == g[..n] + (g[n..][..8] + g[n..][8..]);
  }

  lemma BoundaryDamageUnseals(f: ByteString, g: ByteString, lo: nat, hi: nat)
    requires Sealed(f) && DamagedWithin(f, g, lo, hi) && hi - lo <= 8 && lo <= |f| - FOOTER_SIZE <= hi
    ensures !Sealed(g)
  {
    if Sealed(g) {
      var n := |f| - FOOTER_SIZE;
      PartsAgree(f, g, lo, hi, n);
      SealIsChecksum(f, f[..n], f[n..][..8]);
      SealIsChecksum(g, g[..n], g[n..][..8]);
      Crc64.AcrossBoundary(f[..n], g[..n], lo, f[n..][..8], g[n..][..8], hi - n);
      SameParts(f, g, n);
    }
  }

  /** Damage to at most eight neighbouring bytes anywhere in an acceptable file is found. */
  lemma WindowDamageIsFound(f: ByteString, g: ByteString, lo: nat, hi: nat)
    requires Accepted(f) && DamagedWithin(f, g, lo, hi) && hi - lo <= 8
    ensures !Accepted(g)
  {
    AcceptedIsSealed(f);
    if hi + FOOTER_SIZE <= |f| {
      BodyDamageUnseals(f, g, lo, hi);
    } else if |f| - FOOTER_SIZE <= lo {
      FooterDamageUnseals(f, g, lo, hi);
    } else {
      BoundaryDamageUnseals(f, g, lo, hi);
    }
    UnsealedIsRejected(g);
  }

  lemma FooterInjective(a: ByteString, b: ByteString)
    requires |a| == |b| == FOOTER_SIZE && a != b
    ensures ParseFooter(a) != ParseFooter(b)
  {
    assert a == a[..8] + a[8..] && b == b[..8] + b[8..];
    if FromLittleEndian(a[..8]) == FromLittleEndian(b[..8]) { LittleEndianInjective(a[..8], b[..8]); }
  }

  lemma {:induction false} LittleEndianInjective(a: ByteString, b: ByteString)
    requires |a| == |b| && FromLittleEndian(a) == FromLittleEndian(b)
    ensures a == b
  {
    if a != [] { LittleEndianInjective(a[1..], b[1..]); }
  }

  /** A written file is acceptable, so all of this holds of it. */
  lemma WrittenFileIsAccepted(meta: ByteString, sections: seq<Section>)
    requires Storable(meta, sections)
    ensures Accepted(File(meta, sections))
  {
    WrittenFileOpens(meta, sections);
    WrittenFileValidates(meta, sections);
  }
}
