/**
  The artifact file byte by byte (src/artifact/container.h:11-65): where everything is in a written file, which files the
  reader opens, and what it reads by a name.
 */
module FileLayout {
  import opened Bytes
  import opened Container
  import opened Artifact
  import opened ArtifactTheorems

  // ---------------------------------------------------------------- what is written

  /** Where the part before place `i` ends; `places` are those of the sections, and of the table behind them. */
  ghost function End(meta: ByteString, sections: seq<Section>, places: seq<nat>, i: nat): nat
    requires i <= |sections| < |places|
  {
    if i == 0 then 64 + |meta| else places[i - 1] + |sections[i - 1].data|
  }

  /** The next multiple of 64. */
  ghost predicate IsNext(end: nat, at: nat) { at % 64 == 0 && end <= at < end + 64 }

  /** Each part is at the next multiple of 64 behind the one before it. */
  ghost predicate ArePlaces(meta: ByteString, sections: seq<Section>, places: seq<nat>) {
    |places| == |sections| + 1 && forall i :: 0 <= i < |places| ==> IsNext(End(meta, sections, places, i), places[i])
  }

  /** Between the parts there are zeros. */
  ghost predicate IsGap(f: ByteString, from: nat, to: nat) {
    to <= |f| && forall k :: from <= k < to ==> f[k] == 0
  }

  ghost predicate IsAt(f: ByteString, at: nat, data: ByteString) { at + |data| <= |f| && f[at..at + |data|] == data }

  /** The name, with zeros up to 96 bytes. */
  ghost predicate IsName(field: ByteString, name: ByteString) {
    |field| == 96 && |name| < 96 && field[..|name|] == name && forall k :: |name| <= k < 96 ==> field[k] == 0
  }

  ghost predicate HeaderIs(f: ByteString, meta: nat, count: nat, table: nat) {
    && |f| >= 64 && f[..8] == Ascii("XINFER") + [0, 0]
    && IsField(f, 8, 4, 1) && IsField(f, 12, 4, 64) && IsField(f, 16, 4, 0) && IsField(f, 20, 4, count)
    && IsField(f, 24, 8, 64) && IsField(f, 32, 8, meta)
    && IsField(f, 40, 8, table) && IsField(f, 48, 8, 128 * count) && IsField(f, 56, 8, |f|)
  }

  /** A section's entry at `at`, and its bytes at `place`. */
  ghost predicate SectionIs(f: ByteString, s: Section, at: nat, place: nat) {
    && at + 128 <= |f| && IsAt(f, place, s.data)
    && IsName(f[at..at + 96], s.name) && IsField(f, at + 96, 4, s.tag) && IsField(f, at + 100, 4, s.flags)
    && IsField(f, at + 104, 8, place) && IsField(f, at + 112, 8, |s.data|)
    && IsField(f, at + 120, 8, if s.data == [] then 0 else Digest(s.data))
  }

  ghost predicate FooterIs(f: ByteString) {
    && |f| >= 16 && f[|f| - 8..] == Ascii("XINFFOOT")
    && IsField(f, |f| - 16, 8, Digest(f[..|f| - 16]))
  }

  function Places(meta: ByteString, sections: seq<Section>, n: nat): (r: seq<nat>)
    requires n <= |sections|
    ensures |r| == n + 1
    ensures forall i :: 0 <= i < n ==> r[i] == Offset(meta, sections, i)
    ensures n == |sections| ==> r[n] == TableOffset(meta, sections)
  {
    seq(n, i requires 0 <= i < n => Offset(meta, sections, i)) + [TableOffset(meta, sections)]
  }

  lemma NextIsPadded(end: nat)
    ensures IsNext(end, end + Pad(end))
  {
  }

  lemma PlaceIs(meta: ByteString, sections: seq<Section>, i: nat, place: nat)
    requires i <= |sections|
    requires place == if i < |sections| then Offset(meta, sections, i) else TableOffset(meta, sections)
    ensures IsNext(64 + |Body(meta, sections, i)|, place)
  {
    NextIsPadded(64 + |Body(meta, sections, i)|);
  }

  lemma EndIs(meta: ByteString, sections: seq<Section>, places: seq<nat>, i: nat)
    requires i <= |sections| && places == Places(meta, sections, |sections|)
    ensures End(meta, sections, places, i) == 64 + |Body(meta, sections, i)|
  {
    if i > 0 { EndOfSection(meta, sections, i - 1); }
  }

  lemma PlacesAre(meta: ByteString, sections: seq<Section>, places: seq<nat>)
    requires places == Places(meta, sections, |sections|)
    ensures ArePlaces(meta, sections, places)
  {
    forall i: nat | i < |places|
      ensures IsNext(End(meta, sections, places, i), places[i])
    {
      EndIs(meta, sections, places, i);
      PlaceIs(meta, sections, i, places[i]);
    }
  }

  lemma Magics()
    ensures Magic() == Ascii("XINFER") + [0, 0] && FooterMagic() == Ascii("XINFFOOT")
  {
  }

  lemma HeaderOfLaid(f: ByteString, h: Header, checksum: nat, meta: ByteString, entries: seq<Entry>)
    requires Laid(f, h, checksum, meta, entries) && h.flags == 0 && h.metaOffset == 64
    ensures HeaderIs(f, |meta|, |entries|, h.tableOffset)
  {
    Magics();
    HeaderLayout(f, h);
  }

  lemma FooterOfSlice(f: ByteString, checksum: nat)
    requires |f| >= 16 && ParseFooter(f[|f| - 16..]) == Footer(checksum, FooterMagic()) && checksum == Digest(f[..|f| - 16])
    ensures FooterIs(f)
  {
    var footer, at := f[|f| - 16..], |f| - 16;
    Magics();
    FooterLayout(footer, Footer(checksum, FooterMagic()));
    assert footer[0..8] == f[at..at + 8] && footer[8..] == f[|f| - 8..];
    SameField(footer, 0, f, at, 8, checksum);
  }

  lemma FooterOfLaid(f: ByteString, h: Header, checksum: nat, meta: ByteString, entries: seq<Entry>)
    requires Laid(f, h, checksum, meta, entries)
    ensures |f| >= 16 && ParseFooter(f[|f| - 16..]) == Footer(checksum, FooterMagic())
  {
  }

  lemma EndsAreWritten(meta: ByteString, sections: seq<Section>, f: ByteString)
    requires Storable(meta, sections) && f == File(meta, sections)
    ensures HeaderIs(f, |meta|, |sections|, TableOffset(meta, sections)) && FooterIs(f)
  {
    var h, body, entries := HeaderOf(meta, sections), Contents(meta, sections, []), Entries(meta, sections, |sections|);
    FileIsLaid(meta, sections);
    FileShape(meta, sections, f, body);
    PlainHeader(meta, sections, h);
    HeaderOfLaid(f, h, Digest(body), meta, entries);
    FooterOfLaid(f, h, Digest(body), meta, entries);
    FooterOfSlice(f, Digest(body));
  }

  lemma PlainHeader(meta: ByteString, sections: seq<Section>, h: Header)
    requires h == HeaderOf(meta, sections)
    ensures h.flags == 0 && h.metaOffset == 64 && h.tableOffset == TableOffset(meta, sections)
  {
  }

  /** A field of a slice is a field of the whole. */
  lemma ShiftField(f: ByteString, from: nat, to: nat, at: nat, n: nat, x: nat)
    requires from <= to <= |f| && at + n <= to - from
    ensures IsField(f[from..to], at, n, x) <==> IsField(f, from + at, n, x)
  {
    SliceOfPart(f, from, f[from..to], at, at + n);
    SameField(f[from..to], at, f, from + at, n, x);
  }

  function Texts(entries: seq<Entry>): (r: seq<ByteString>)
    requires NamesFilled(entries)
    ensures |r| == |entries| && forall i :: 0 <= i < |r| ==> |r[i]| == 128 && r[i] == EntryText(entries[i], [])
  {
    if entries == [] then [] else [EntryText(entries[0], [])] + Texts(entries[1..])
  }

  /** The table is its entries' texts, one after the other. */
  lemma {:induction false} TableIsConcat(entries: seq<Entry>)
    requires NamesFilled(entries)
    ensures TableText(entries, []) == Concat(Texts(entries))
    decreases |entries|
  {
    if entries != [] {
      var rest := TableText(entries[1..], []);
      TableIsConcat(entries[1..]);
      TableUncons(entries, rest);
      EntryThen(entries[0], [], rest);
      assert [] + rest == rest;
    }
  }

  lemma EntrySlice(text: ByteString, entries: seq<Entry>, i: nat, at: nat)
    requires NamesFilled(entries) && i < |entries| && text == TableText(entries, []) && at == i * 128
    ensures at + 128 <= |text| && text[at..at + 128] == EntryText(entries[i], [])
  {
    TableIsConcat(entries);
    ConcatPart(Texts(entries), 128, i);
  }

  lemma EntryOfTable(text: ByteString, entries: seq<Entry>, i: nat, at: nat, e: Entry)
    requires NamesFilled(entries) && AllFit(entries) && i < |entries| && text == TableText(entries, [])
    requires at == 128 * i && e == entries[i]
    ensures at + 128 <= |text| && IsEntry(text[at..at + 128], e)
  {
    EntrySlice(text, entries, i, at);
    WrittenEntry(e, []);
  }

  lemma EntryPrefix(s: ByteString, e: Entry)
    requires IsEntry(s, e)
    ensures IsEntry(s[..128], e)
  {
    assert s[..128][..96] == s[..96] && s[0..128] == s[..128];
    ShiftField(s, 0, 128, 96, 4, e.tag);
    ShiftField(s, 0, 128, 100, 4, e.flags);
    ShiftField(s, 0, 128, 104, 8, e.offset);
    ShiftField(s, 0, 128, 112, 8, e.size);
    ShiftField(s, 0, 128, 120, 8, e.checksum);
  }

  lemma GapInBody(meta: ByteString, sections: seq<Section>, i: nat, f: ByteString, b: ByteString)
    requires i < |sections| && b == Body(meta, sections, |sections|)
    requires 64 + |b| <= |f| && f[64..64 + |b|] == b
    ensures IsGap(f, 64 + |Body(meta, sections, i)|, Offset(meta, sections, i))
  {
    BodyGrows(meta, sections, i + 1, |sections|);
    var before, part := Body(meta, sections, i), Body(meta, sections, i + 1);
    var zeros := Zeros(Pad(HEADER_SIZE + |before|));
    EndOfSection(meta, sections, i);
    Assoc(before, zeros, sections[i].data);
    GapInPrefix(f, b, before, zeros, sections[i].data, part);
  }

  lemma GapInPrefix(f: ByteString, b: ByteString, before: ByteString, zeros: ByteString, rest: ByteString, part: ByteString)
    requires 64 + |b| <= |f| && f[64..64 + |b|] == b && |part| <= |b| && b[..|part|] == part == before + (zeros + rest)
    requires forall k :: 0 <= k < |zeros| ==> zeros[k] == 0
    ensures IsGap(f, 64 + |before|, 64 + |before| + |zeros|)
  {
    GapInParts(f[..64 + |part|], before, zeros, rest) by {
      assert f[..64 + |part|][64..] == f[64..64 + |b|][..|part|];
    }
  }

  lemma GapBeforeTable(meta: ByteString, sections: seq<Section>, f: ByteString, b: ByteString)
    requires Storable(meta, sections) && f == File(meta, sections) && b == Body(meta, sections, |sections|)
    ensures IsGap(f, 64 + |b|, TableOffset(meta, sections))
  {
    var entries, footer := Entries(meta, sections, |sections|), FooterText(Digest(Contents(meta, sections, [])));
    var zeros := Zeros(Pad(HEADER_SIZE + |b|));
    FileIs(meta, sections, HeaderOf(meta, sections), b, zeros, entries, footer);
    HeaderLast(HeaderOf(meta, sections), b + (zeros + (TableText(entries, []) + footer)));
    GapInParts(f, b, zeros, TableText(entries, []) + footer);
  }

  lemma GapInParts(f: ByteString, b: ByteString, zeros: ByteString, rest: ByteString)
    requires |f| >= 64 && f[64..] == b + (zeros + rest) && forall k :: 0 <= k < |zeros| ==> zeros[k] == 0
    ensures IsGap(f, 64 + |b|, 64 + |b| + |zeros|)
  {
    assert |f| == 64 + |f[64..]|;
    forall k | 64 + |b| <= k < 64 + |b| + |zeros|
      ensures f[k] == 0
    {
      assert f[k] == f[64..][k - 64] == zeros[k - 64 - |b|];
    }
  }

  lemma NameFieldIs(name: ByteString)
    requires |name| < 96
    ensures IsName(NameField(name), name)
  {
  }

  lemma EntryOfSection(s: Section, e: Entry, f: ByteString, at: nat, place: nat)
    requires |s.name| < 96 && at + 128 <= |f| && IsEntry(f[at..at + 128], e) && IsAt(f, place, s.data)
    requires e == Entry(NameField(s.name), s.tag, s.flags, place, |s.data|, if s.data == [] then 0 else Digest(s.data))
    ensures SectionIs(f, s, at, place)
  {
    NameFieldIs(s.name);
    assert f[at..at + 128][..96] == f[at..at + 96];
    ShiftField(f, at, at + 128, 96, 4, e.tag);
    ShiftField(f, at, at + 128, 100, 4, e.flags);
    ShiftField(f, at, at + 128, 104, 8, e.offset);
    ShiftField(f, at, at + 128, 112, 8, e.size);
    ShiftField(f, at, at + 128, 120, 8, e.checksum);
  }

  lemma SectionFrom(meta: ByteString, sections: seq<Section>, i: nat, f: ByteString, at: nat, place: nat, e: Entry, s: Section)
    requires ShortNames(sections) && i < |sections| && place == Offset(meta, sections, i) && s == sections[i]
    requires e == EntryOf(meta, sections, i)
    requires at + 128 <= |f| && IsEntry(f[at..at + 128], e) && IsAt(f, place, s.data)
    ensures SectionIs(f, s, at, place)
  {
    EntryIs(meta, sections, i, place, s, e);
    EntryOfSection(s, e, f, at, place);
  }

  /** The parts of a file of which the table and the sections' places are read off. */
  ghost predicate HasParts(f: ByteString, meta: ByteString, sections: seq<Section>, entries: seq<Entry>, table: nat) {
    && ShortNames(sections) && entries == Entries(meta, sections, |sections|) && AllFit(entries)
    && IsAt(f, table, TableText(entries, [])) && IsAt(f, 64, Body(meta, sections, |sections|))
  }

  lemma SectionIsWritten(meta: ByteString, sections: seq<Section>, i: nat, f: ByteString, entries: seq<Entry>, table: nat,
                         at: nat, place: nat, s: Section, e: Entry)
    requires HasParts(f, meta, sections, entries, table) && i < |sections| && place == Offset(meta, sections, i) && s == sections[i]
    requires at == 128 * i && e == entries[i]
    ensures SectionIs(f, s, table + at, place)
  {
    EntryOfFile(meta, sections, i, f, entries, table, at, e);
    DataIsWritten(meta, sections, i, f, Body(meta, sections, |sections|), place);
    SectionFrom(meta, sections, i, f, table + at, place, e, s);
  }

  lemma SectionHere(meta: ByteString, sections: seq<Section>, i: nat, f: ByteString, entries: seq<Entry>, table: nat,
                    places: seq<nat>)
    requires HasParts(f, meta, sections, entries, table) && i < |sections| < |places|
    requires table == places[|sections|] && places[i] == Offset(meta, sections, i)
    ensures SectionAt(f, sections, places, i)
  {
    var at, place, s, e := 128 * i, places[i], sections[i], entries[i];
    SectionIsWritten(meta, sections, i, f, entries, table, at, place, s, e);
    SectionAtFrom(f, sections, places, i, table, at, place);
  }

  lemma SectionAtFrom(f: ByteString, sections: seq<Section>, places: seq<nat>, i: nat, table: nat, at: nat, place: nat)
    requires i < |sections| < |places| && table == places[|sections|] && at == 128 * i && place == places[i]
    requires SectionIs(f, sections[i], table + at, place)
    ensures SectionAt(f, sections, places, i)
  {
  }

  lemma EntryIs(meta: ByteString, sections: seq<Section>, i: nat, place: nat, s: Section, e: Entry)
    requires i < |sections| && s == sections[i] && |s.name| < 96 && e == EntryOf(meta, sections, i)
    requires place == Offset(meta, sections, i)
    ensures e == Entry(NameField(s.name), s.tag, s.flags, place, |s.data|, if s.data == [] then 0 else Digest(s.data))
  {
  }

  lemma DataIsWritten(meta: ByteString, sections: seq<Section>, i: nat, f: ByteString, b: ByteString, place: nat)
    requires i < |sections| && b == Body(meta, sections, |sections|) && IsAt(f, 64, b) && place == Offset(meta, sections, i)
    ensures IsAt(f, place, sections[i].data)
  {
    SectionInFile(meta, sections, i, f, b);
    ReadIsAt(f, place, sections[i].data);
  }

  lemma EntryOfFile(meta: ByteString, sections: seq<Section>, i: nat, f: ByteString, entries: seq<Entry>, table: nat, at: nat,
                    e: Entry)
    requires HasParts(f, meta, sections, entries, table) && i < |sections| && at == 128 * i && e == entries[i]
    ensures table + at + 128 <= |f| && IsEntry(f[table + at..table + at + 128], e) && e == EntryOf(meta, sections, i)
  {
    EntryAt(meta, sections, |sections|, i);
    EntryIsWritten(f, table, TableText(entries, []), entries, i, at, e);
  }

  lemma EntryIsWritten(f: ByteString, table: nat, text: ByteString, entries: seq<Entry>, i: nat, at: nat, e: Entry)
    requires NamesFilled(entries) && AllFit(entries) && i < |entries| && text == TableText(entries, []) && IsAt(f, table, text)
    requires at == 128 * i && e == entries[i]
    ensures table + at + 128 <= |f| && IsEntry(f[table + at..table + at + 128], e)
  {
    EntryOfTable(text, entries, i, at, e);
    EntryFrom(f, table, text, at, e);
  }

  lemma EntryFrom(f: ByteString, table: nat, text: ByteString, at: nat, e: Entry)
    requires IsAt(f, table, text) && at + 128 <= |text| && IsEntry(text[at..at + 128], e)
    ensures table + at + 128 <= |f| && IsEntry(f[table + at..table + at + 128], e)
  {
    SliceOfPart(f, table, text, at, at + 128);
  }

  lemma SliceOfPart(f: ByteString, at: nat, text: ByteString, from: nat, to: nat)
    requires IsAt(f, at, text) && from <= to <= |text|
    ensures at + to <= |f| && f[at + from..at + to] == text[from..to]
  {
    var x := f[at..at + |text|];
    forall k | from <= k < to
      ensures f[at + k] == x[k]
    {
    }
    assert f[at + from..at + to] == x[from..to];
  }

  lemma TableIsWritten(meta: ByteString, sections: seq<Section>, f: ByteString, entries: seq<Entry>, table: nat)
    requires Storable(meta, sections) && f == File(meta, sections) && table == TableOffset(meta, sections)
    requires entries == Entries(meta, sections, |sections|)
    ensures IsAt(f, table, TableText(entries, [])) && IsAt(f, 64, meta) && |f| == table + 128 * |sections| + 16
  {
    FileIsLaid(meta, sections);
    TableLength(entries, []);
    PlainHeader(meta, sections, HeaderOf(meta, sections));
    TableIsLast(meta, sections);
    LaidParts(f, HeaderOf(meta, sections), Digest(Contents(meta, sections, [])), meta, entries);
  }

  lemma LaidParts(f: ByteString, h: Header, checksum: nat, meta: ByteString, entries: seq<Entry>)
    requires Laid(f, h, checksum, meta, entries) && |TableText(entries, [])| == |entries| * 128
    ensures IsAt(f, h.tableOffset, TableText(entries, [])) && IsAt(f, h.metaOffset, meta) && |f| == h.total
  {
    LaidReads(f, h, checksum, meta, entries, TableText(entries, []));
    ReadIsAt(f, h.metaOffset, meta);
    ReadIsAt(f, h.tableOffset, TableText(entries, []));
  }

  lemma LaidReads(f: ByteString, h: Header, checksum: nat, meta: ByteString, entries: seq<Entry>, text: ByteString)
    requires Laid(f, h, checksum, meta, entries) && text == TableText(entries, []) && |text| == |entries| * 128
    ensures ReadAt(f, h.metaOffset, |meta|) == Some(meta) && ReadAt(f, h.tableOffset, |text|) == Some(text) && |f| == h.total
  {
  }

  lemma ReadIsAt(f: ByteString, at: nat, data: ByteString)
    ensures ReadAt(f, at, |data|) == Some(data) <==> IsAt(f, at, data)
  {
  }

  // ---------------------------------------------------------------- the whole file

  ghost predicate GapAt(f: ByteString, meta: ByteString, sections: seq<Section>, places: seq<nat>, i: nat)
    requires i <= |sections| < |places|
  {
    IsGap(f, End(meta, sections, places, i), places[i])
  }

  ghost predicate SectionAt(f: ByteString, sections: seq<Section>, places: seq<nat>, i: nat)
    requires i < |sections| < |places|
  {
    SectionIs(f, sections[i], places[|sections|] + 128 * i, places[i])
  }

  /** Where the file starts and ends, and what is there. */
  ghost predicate Ends(f: ByteString, meta: ByteString, count: nat, table: nat) {
    |f| == table + 128 * count + 16 && HeaderIs(f, |meta|, count, table) && IsAt(f, 64, meta) && FooterIs(f)
  }

  /** A file that holds this metadata and these sections, and nothing else. */
  ghost predicate Holds(f: ByteString, meta: ByteString, sections: seq<Section>, places: seq<nat>)
    requires |places| == |sections| + 1
  {
    && ArePlaces(meta, sections, places)
    && Ends(f, meta, |sections|, places[|sections|])
    && (forall i: nat :: i < |sections| ==> SectionAt(f, sections, places, i))
    && (forall i: nat :: i <= |sections| ==> GapAt(f, meta, sections, places, i))
  }

  lemma OneNext(end: nat, a: nat, b: nat)
    requires IsNext(end, a) && IsNext(end, b)
    ensures a == b
  {
  }

  lemma SameEnd(meta: ByteString, sections: seq<Section>, a: seq<nat>, b: seq<nat>, i: nat)
    requires i <= |sections| && |a| == |b| == |sections| + 1 && (i > 0 ==> a[i - 1] == b[i - 1])
    ensures End(meta, sections, a, i) == End(meta, sections, b, i)
  {
  }

  lemma {:induction false} PlacesAreUnique(meta: ByteString, sections: seq<Section>, a: seq<nat>, b: seq<nat>, i: nat)
    requires ArePlaces(meta, sections, a) && ArePlaces(meta, sections, b) && i <= |sections|
    ensures a[i] == b[i]
  {
    if i > 0 { PlacesAreUnique(meta, sections, a, b, i - 1); }
    SameEnd(meta, sections, a, b, i);
    OneNext(End(meta, sections, a, i), a[i], b[i]);
  }

  lemma PlacesAreThese(meta: ByteString, sections: seq<Section>, places: seq<nat>)
    requires ArePlaces(meta, sections, places)
    ensures places == Places(meta, sections, |sections|)
  {
    var b := Places(meta, sections, |sections|);
    PlacesAre(meta, sections, b);
    forall i: nat | i < |places|
      ensures places[i] == b[i]
    {
      PlacesAreUnique(meta, sections, places, b, i);
    }
  }

  /** Every byte of a written file: header, parts with the gaps between them, table and footer. */
  lemma FileHolds(meta: ByteString, sections: seq<Section>, f: ByteString, places: seq<nat>)
    requires Storable(meta, sections) && f == File(meta, sections) && ArePlaces(meta, sections, places)
    ensures Holds(f, meta, sections, places)
  {
    PlacesAreThese(meta, sections, places);
    EndsAreThese(meta, sections, f, places[|sections|]);
    var entries := Entries(meta, sections, |sections|);
    PartsAreThese(meta, sections, f, entries, places[|sections|]);
    SectionsAreThese(meta, sections, f, places, entries);
    forall i: nat | i <= |sections|
      ensures GapAt(f, meta, sections, places, i)
    {
      GapIsWritten(meta, sections, places, i, f);
    }
  }

  lemma SectionsAreThese(meta: ByteString, sections: seq<Section>, f: ByteString, places: seq<nat>, entries: seq<Entry>)
    requires HasParts(f, meta, sections, entries, TableOffset(meta, sections)) && places == Places(meta, sections, |sections|)
    ensures forall i: nat :: i < |sections| ==> SectionAt(f, sections, places, i)
  {
    var table := TableOffset(meta, sections);
    forall i: nat | i < |sections|
      ensures SectionAt(f, sections, places, i)
    {
      SectionHere(meta, sections, i, f, entries, table, places);
    }
  }

  lemma PartsAreThese(meta: ByteString, sections: seq<Section>, f: ByteString, entries: seq<Entry>, table: nat)
    requires Storable(meta, sections) && f == File(meta, sections) && entries == Entries(meta, sections, |sections|)
    requires table == TableOffset(meta, sections)
    ensures HasParts(f, meta, sections, entries, table)
  {
    TableIsWritten(meta, sections, f, entries, table);
    EntriesInBounds(meta, sections);
    FileBody(meta, sections, f, Body(meta, sections, |sections|));
  }

  lemma EndsAreThese(meta: ByteString, sections: seq<Section>, f: ByteString, table: nat)
    requires Storable(meta, sections) && f == File(meta, sections) && table == TableOffset(meta, sections)
    ensures Ends(f, meta, |sections|, table)
  {
    EndsAreWritten(meta, sections, f);
    TableIsWritten(meta, sections, f, Entries(meta, sections, |sections|), table);
  }

  lemma GapIsWritten(meta: ByteString, sections: seq<Section>, places: seq<nat>, i: nat, f: ByteString)
    requires Storable(meta, sections) && places == Places(meta, sections, |sections|) && i <= |sections|
    requires f == File(meta, sections)
    ensures GapAt(f, meta, sections, places, i)
  {
    var b := Body(meta, sections, |sections|);
    EndIs(meta, sections, places, i);
    if i < |sections| {
      FileBody(meta, sections, f, b);
      GapInBody(meta, sections, i, f, b);
    } else {
      GapBeforeTable(meta, sections, f, b);
    }
  }

  // ---------------------------------------------------------------- what is read

  /** The sum of an entry's offset and size, in 64 bits, is within the file. */
  ghost predicate EntryEndsIn(f: ByteString, e: Entry) { (e.offset + e.size) % TWO_64 <= |f| }

  ghost predicate EntryInFile(f: ByteString, table: nat, i: nat, e: Entry) {
    table + 128 * i + 128 <= |f| && IsEntry(f[table + 128 * i..table + 128 * i + 128], e)
  }

  ghost predicate IsTable(f: ByteString, table: nat, count: nat, entries: seq<Entry>) {
    |entries| == count && forall i: nat :: i < count ==> EntryInFile(f, table, i, entries[i])
  }

  lemma {:induction false} ReadTableIs(s: ByteString, n: nat, i: nat, t: ByteString)
    requires |s| >= n * ENTRY_SIZE && i < n && t == s[128 * i..]
    ensures ReadTable(s, n)[i] == ParseEntry(t).0
  {
    if i == 0 {
      FirstRead(s, n, t);
    } else {
      SuffixOfSuffix(s, 128, 128 * (i - 1));
      ReadTableIs(s[128..], n - 1, i - 1, t);
      LaterRead(s, n, i, ParseEntry(t).0);
    }
  }

  lemma FirstRead(s: ByteString, n: nat, t: ByteString)
    requires |s| >= n * ENTRY_SIZE && 0 < n && t == s[0..]
    ensures ReadTable(s, n)[0] == ParseEntry(t).0
  {
    assert t == s;
    OneEntry(s, n);
  }

  lemma LaterRead(s: ByteString, n: nat, i: nat, e: Entry)
    requires |s| >= n * ENTRY_SIZE && 0 < i < n && ReadTable(s[128..], n - 1)[i - 1] == e
    ensures ReadTable(s, n)[i] == e
  {
    OneEntry(s, n);
  }

  lemma OneEntry(s: ByteString, n: nat)
    requires n > 0 && |s| >= n * ENTRY_SIZE
    ensures ReadTable(s, n) == [ParseEntry(s).0] + ReadTable(s[128..], n - 1)
  {
    RestOfEntry(s);
  }

  lemma SuffixOfSuffix(s: ByteString, a: nat, b: nat)
    requires a + b <= |s|
    ensures s[a..][b..] == s[a + b..]
  {
  }

  lemma RestOfEntry(s: ByteString)
    requires |s| >= ENTRY_SIZE
    ensures ParseEntry(s).1 == s[128..]
  {
    TakeFrom(s, 96, 4);
    TakeFrom(s, 100, 4);
    TakeFrom(s, 104, 8);
    TakeFrom(s, 112, 8);
    TakeFrom(s, 120, 8);
  }

  /** The entries of a table that is read are those that are there. */
  lemma TableIsRead(f: ByteString, table: nat, text: ByteString, count: nat)
    requires |text| == 128 * count && IsAt(f, table, text)
    ensures IsTable(f, table, count, ReadTable(text, count))
  {
    forall i: nat | i < count
      ensures EntryInFile(f, table, i, ReadTable(text, count)[i])
    {
      EntryIsRead(f, table, text, count, i, 128 * i, ReadTable(text, count)[i]);
    }
  }

  lemma EntryIsRead(f: ByteString, table: nat, text: ByteString, count: nat, i: nat, at: nat, e: Entry)
    requires |text| == 128 * count && IsAt(f, table, text) && i < count && at == 128 * i && e == ReadTable(text, count)[i]
    ensures table + at + 128 <= |f| && IsEntry(f[table + at..table + at + 128], e)
  {
    ReadTableIs(text, count, i, text[at..]);
    EntryLayout(text[at..], e);
    EntryPrefix(text[at..], e);
    assert text[at..][..128] == text[at..at + 128];
    EntryFrom(f, table, text, at, e);
  }

  lemma {:induction false} NameEnds(field: ByteString, n: nat)
    requires n <= |field| && (forall i :: 0 <= i < n ==> field[i] != 0) && (n == |field| || field[n] == 0)
    ensures NameOf(field) == field[..n]
  {
    if n > 0 {
      NameEnds(field[1..], n - 1);
      assert field[..n] == [field[0]] + field[1..][..n - 1];
    }
  }

  /** The field holds this name up to its first zero, or its end. */
  ghost predicate NamedBy(field: ByteString, name: ByteString) {
    |name| <= |field| && field[..|name|] == name && NulFree(name) && (|name| == |field| || field[|name|] == 0)
  }

  lemma {:induction false} NameIsPrefix(field: ByteString)
    ensures NamedBy(field, NameOf(field))
  {
    if field != [] && field[0] != 0 { NameIsPrefix(field[1..]); }
  }

  lemma NamedByIff(field: ByteString, name: ByteString)
    ensures NamedBy(field, name) <==> NameOf(field) == name
  {
    NameIsPrefix(field);
    if NamedBy(field, name) {
      assert forall i :: 0 <= i < |name| ==> field[i] == field[..|name|][i];
      NameEnds(field, |name|);
    }
  }

  /** Entry `i` is the last of the first `n` with this name. */
  ghost predicate LastWith(entries: seq<Entry>, n: nat, name: ByteString, i: nat) {
    i < n <= |entries| && NamedBy(entries[i].name, name) && forall j :: i < j < n ==> !NamedBy(entries[j].name, name)
  }

  lemma {:induction false} IndexFinds(entries: seq<Entry>, name: ByteString)
    ensures name in IndexOf(entries) ==> LastWith(entries, |entries|, name, IndexOf(entries)[name])
    ensures name !in IndexOf(entries) ==> forall i :: 0 <= i < |entries| ==> !NamedBy(entries[i].name, name)
    decreases |entries|
  {
    if entries != [] {
      var n := |entries| - 1;
      IndexFinds(entries[..n], name);
      NamedByIff(entries[n].name, name);
      if name in IndexOf(entries) && NameOf(entries[n].name) != name {
        assert LastWith(entries[..n], n, name, IndexOf(entries)[name]);
      }
    }
  }

  /** What an entry says of its section's bytes. */
  ghost predicate Yields(f: ByteString, e: Entry, data: ByteString) {
    |data| == e.size && (data == [] || (IsAt(f, e.offset, data) && Digest(data) == e.checksum))
  }

  /** Reading by a name gives the bytes of the last entry with that name, if they are all there and their checksum is right. */
  lemma ReadsIff(f: ByteString, o: Opened, name: ByteString, data: ByteString)
    ensures ReadSection(f, o, name) == Some(data) <==>
      exists i: nat :: LastWith(o.entries, |o.entries|, name, i) && Yields(f, o.entries[i], data)
  {
    IndexFinds(o.entries, name);
    if name in IndexOf(o.entries) {
      var i := IndexOf(o.entries)[name];
      ReadsEntry(f, o, name, i, data);
      forall j: nat | LastWith(o.entries, |o.entries|, name, j)
        ensures j == i
      {
        assert !(i < j) && !(j < i);
      }
    }
  }

  lemma ReadsEntry(f: ByteString, o: Opened, name: ByteString, i: nat, data: ByteString)
    requires i < |o.entries| && name in IndexOf(o.entries) && IndexOf(o.entries)[name] == i
    ensures ReadSection(f, o, name) == Some(data) <==> Yields(f, o.entries[i], data)
  {
    var e := o.entries[i];
    if e.size != 0 && |data| == e.size { ReadIsAt(f, e.offset, data); }
  }

  // ---------------------------------------------------------------- which files open

  /** Magics, version and sizes are right. */
  ghost predicate EndsAreRight(f: ByteString, h: Header) {
    && |f| >= 80 && IsHeader(f, h) && h.magic == Ascii("XINFER") + [0, 0] && h.version == 1 && h.headerSize == 64
    && h.total == |f| && f[|f| - 8..] == Ascii("XINFFOOT")
  }

  /** The metadata is in the file, if there is any. */
  ghost predicate MetaIsIn(f: ByteString, h: Header) { h.metaSize == 0 || h.metaOffset + h.metaSize <= |f| }

  /** So is the table, if there is one, and every section it lists ends in the file. */
  ghost predicate TableIsIn(f: ByteString, h: Header) {
    h.count == 0 || (h.tableSize == 128 * h.count && h.tableOffset + h.tableSize <= |f| && SectionsEndIn(f, h))
  }

  ghost predicate SectionsEndIn(f: ByteString, h: Header) {
    forall i: nat, e: Entry :: i < h.count && EntryInFile(f, h.tableOffset, i, e) ==> EntryEndsIn(f, e)
  }

  lemma EndsOpenIff(f: ByteString)
    ensures OpenEnds(f).Some? <==> |f| >= 80 && EndsAreRight(f, ParseHeader(f))
    ensures OpenEnds(f).Some? ==> OpenEnds(f).value.0 == ParseHeader(f)
  {
    Magics();
    if |f| >= 80 {
      HeaderLayout(f, ParseHeader(f));
      assert f[|f| - 8..] == f[|f| - 16..][8..];
    }
  }

  lemma MetaOpensIff(f: ByteString, h: Header)
    requires |f| < TWO_64
    ensures OpenMeta(f, h).Some? <==> MetaIsIn(f, h)
    ensures MetaIsIn(f, h) ==> OpenMeta(f, h) == Some(if h.metaSize == 0 then [] else f[h.metaOffset..h.metaOffset + h.metaSize])
  {
  }

  lemma TableOpensIff(f: ByteString, h: Header)
    requires |f| < TWO_64
    ensures OpenTable(f, h).Some? <==> TableIsIn(f, h)
    ensures OpenTable(f, h).Some? ==> IsTable(f, h.tableOffset, h.count, OpenTable(f, h).value)
  {
    if h.count > 0 && h.tableSize == 128 * h.count && h.tableOffset + h.tableSize <= |f| {
      var text := f[h.tableOffset..h.tableOffset + h.tableSize];
      var entries := ReadTable(text, h.count);
      TableIsRead(f, h.tableOffset, text, h.count);
      TableBounds(f, h, entries);
    }
  }

  lemma TableBounds(f: ByteString, h: Header, entries: seq<Entry>)
    requires IsTable(f, h.tableOffset, h.count, entries)
    ensures InBounds(entries, |f|) <==> SectionsEndIn(f, h)
  {
    forall i: nat | i < h.count
      ensures EntryInFile(f, h.tableOffset, i, entries[i])
      ensures Add64(entries[i].offset, entries[i].size) <= |f| <==> EntryEndsIn(f, entries[i])
    {
    }
    forall i: nat, e: Entry | i < h.count && EntryInFile(f, h.tableOffset, i, e)
      ensures e == entries[i]
    {
      OneEntryThere(f[h.tableOffset + 128 * i..h.tableOffset + 128 * i + 128], e, entries[i]);
    }
  }

  lemma OneEntryThere(s: ByteString, a: Entry, b: Entry)
    requires IsEntry(s, a) && IsEntry(s, b)
    ensures a == b
  {
    EntryLayout(s, a);
    EntryLayout(s, b);
  }

  /** A file opens if and only if its header and footer are right, and its metadata, table and sections end in it. */
  lemma OpensIff(f: ByteString)
    requires |f| < TWO_64
    ensures Open(f).Some? <==> exists h :: EndsAreRight(f, h) && MetaIsIn(f, h) && TableIsIn(f, h)
  {
    EndsOpenIff(f);
    if |f| >= 80 {
      var h := ParseHeader(f);
      MetaOpensIff(f, h);
      TableOpensIff(f, h);
      forall g | EndsAreRight(f, g)
        ensures g == h
      {
        HeaderLayout(f, g);
      }
    }
  }

  /** What an opened file then holds. */
  lemma OpenedIs(f: ByteString)
    requires |f| < TWO_64 && Open(f).Some?
    ensures var o := Open(f).value;
      && EndsAreRight(f, o.header) && IsFooter(f[|f| - 16..], o.footer) && MetaIsIn(f, o.header)
      && IsTable(f, o.header.tableOffset, o.header.count, o.entries)
      && o.raw == (if o.header.metaSize == 0 then [] else f[o.header.metaOffset..o.header.metaOffset + o.header.metaSize])
  {
    EndsOpenIff(f);
    var h := ParseHeader(f);
    MetaOpensIff(f, h);
    TableOpensIff(f, h);
    FooterLayout(f[|f| - 16..], ParseFooter(f[|f| - 16..]));
  }
}
