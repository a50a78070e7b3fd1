/** The synthetic code objects read back: parsing what _synth_elf writes gives the headers, payloads,
    names and symbols it was written from. */
module SynthParse {
  import opened Wrappers
  import opened Arithmetic
  import opened Bytes
  import opened ElfFormat
  import opened CodeEnd
  import opened CodeEndSynth
  import opened Records
  import opened SynthBytes

  // ---- strings ----

  lemma {:induction false} NameAt(names: seq<Bytes>, m: nat, i: nat)
    requires i < m <= |names|
    ensures At(Strings(names, m), |Strings(names, i)|, names[i] + [0])
  {
    var x := names[i] + [0];
    if i == m - 1 {
      assert Strings(names, m) == Strings(names, i) + x;
      Joined(Strings(names, i), x);
    } else {
      NameAt(names, m - 1, i);
      assert Strings(names, m) == Strings(names, m - 1) + (names[m - 1] + [0]);
      Longer(Strings(names, m - 1), names[m - 1] + [0], |Strings(names, i)|, x);
    }
  }

  lemma {:induction false} CutAtZero(buf: Bytes, off: nat, x: Bytes, i: nat)
    requires At(buf, off, x + [0]) && i <= |x|
    ensures UpToZero(buf, off + i) == UpToZero(x, i)
    decreases |x| - i
  {
    assert buf[off + i] == buf[off..off + |x| + 1][i] == (x + [0])[i];
    if i < |x| && x[i] != 0 {
      CutAtZero(buf, off, x, i + 1);
    }
  }

  /** What the reader makes of a stored name: the text up to its first zero byte. */
  function ReadName(x: Bytes): (n: Name) {
    Decode(UpToZero(x, 0))
  }

  /** Every name of a string table reads back at its offset. */
  lemma {:induction false} NameReads(names: seq<Bytes>, i: nat)
    requires i < |names|
    ensures CStr(Strings(names, |names|), |Strings(names, i)|) == ReadName(names[i])
  {
    hide Strings, Decode, UpToZero;
    NameAt(names, |names|, i);
    CutAtZero(Strings(names, |names|), |Strings(names, i)|, names[i], 0);
  }

  lemma {:induction false} StringsPrefix(names: seq<Bytes>, more: seq<Bytes>, m: nat)
    requires m <= |names|
    ensures Strings(names + more, m) == Strings(names, m)
  {
    if m > 0 {
      StringsPrefix(names, more, m - 1);
    }
  }

  lemma StringsNext(names: seq<Bytes>, m: nat)
    requires m < |names|
    ensures |Strings(names, m + 1)| == |Strings(names, m)| + |names[m]| + 1
  {
  }

  lemma {:induction false} StrtabIs(ks: seq<Kernel>)
    ensures |Strtab(ks)| == |Dynstr(ks)| + 9
    ensures forall j :: 0 <= j <= 2 * |ks| + 1 ==> Strings(AllNames(ks), j) == Strings(Names(ks), j)
  {
    hide Strings, Names;
    forall j | 0 <= j <= 2 * |ks| + 1
      ensures Strings(AllNames(ks), j) == Strings(Names(ks), j)
    {
      StringsPrefix(Names(ks), [Ascii("_DYNAMIC")], j);
    }
    StringsNext(AllNames(ks), 2 * |ks| + 1);
  }

  lemma {:induction false} ShstrtabIs()
    ensures var n := SectionNames();
      && |Strings(n, 0)| == 0 && |Strings(n, 1)| == 1 && |Strings(n, 2)| == 7 && |Strings(n, 3)| == 15
      && |Strings(n, 4)| == 25 && |Strings(n, 5)| == 31 && |Strings(n, 6)| == 39 && |Strings(n, 7)| == 47
      && |Strings(n, 8)| == 53 && |Strings(n, 9)| == 62 && |Strings(n, 10)| == 77 && |Strings(n, 11)| == 86
      && |Strings(n, 12)| == 94 && |Strings(n, 13)| == 104 && |Strings(n, 14)| == 112
  {
    var n := SectionNames();
    assert Strings(n, 0) == [];
    hide Strings;
    StringsNext(n, 0);
    StringsNext(n, 1);
    StringsNext(n, 2);
    StringsNext(n, 3);
    StringsNext(n, 4);
    StringsNext(n, 5);
    StringsNext(n, 6);
    StringsNext(n, 7);
    StringsNext(n, 8);
    StringsNext(n, 9);
    StringsNext(n, 10);
    StringsNext(n, 11);
    StringsNext(n, 12);
    StringsNext(n, 13);
  }

  /** The name offset of each section header is that of its name. */
  lemma {:induction false} NameOffsets(a: Front, b: Back, l: nat, i: nat)
    requires i < 14
    ensures Sections(a, b, l)[i].nameIdx == |Strings(SectionNames(), i)|
  {
    ShstrtabIs();
    hide Strings, SectionNames;
  }

  // ---- layout ----

  /** Positions and sizes as _synth_elf lays the parts out. */
  ghost predicate Laid(ks: seq<Kernel>, a: Front, b: Back, l: nat) {
    && FrontOk(a) && BackOk(a, b, l)
    && a.dynsymSize == 24 * (2 * |ks| + 1) && a.dynstrLen == |Dynstr(ks)| && a.rodataSize == 64 * |ks|
    && b.symtabSize == 24 * (2 * |ks| + 2) && b.shstrOff == b.symtabOff + b.symtabSize
      && b.strtabOff == b.shstrOff + 112
    && b.strtabLen == |Dynstr(ks)| + 9 && b.strtabOff + b.strtabLen <= b.shoff
    && a.roEnd == a.rodataOff + a.rodataSize && a.roEnd <= a.textAddr
  }

  lemma {:induction false} FrontSizes(kernels: nat, dynstrLen: nat)
    ensures var a := FrontOf(kernels, dynstrLen);
      a.dynsymSize == 24 * (2 * kernels + 1) && a.rodataSize == 64 * kernels && a.roEnd == a.rodataOff + a.rodataSize
  {
    hide Two, BitLength, SegmentStart, AlignSkew, Align;
  }

  lemma {:induction false} LaidOut(ks: seq<Kernel>, tail: Tail)
    requires FillFits(tail)
    ensures Laid(ks, FrontOfKernels(ks), BackOfKernels(ks, tail), |TextBytes(ks, tail)|)
  {
    hide FrontOf, BackOf, SegmentStart, AlignSkew, PagePadding, Dynstr, TextBytes;
    var a := FrontOfKernels(ks);
    FrontFacts(|ks|, |Dynstr(ks)|);
    FrontSizes(|ks|, |Dynstr(ks)|);
    BackFacts(a, |ks|, |TextBytes(ks, tail)|);
  }

  lemma HeaderWidth(shoff: nat)
    ensures Width(HeaderRecord(shoff), 0) == 48
  {
    var r := HeaderRecord(shoff);
    assert Width(r, 12) == 2;
    assert Width(r, 10) == 6;
    assert Width(r, 8) == 10;
    assert Width(r, 6) == 16;
    assert Width(r, 4) == 32;
    assert Width(r, 2) == 44;
  }

  lemma DynamicWidth(a: Front)
    requires AllFit(DynamicRecords(a))
    ensures |Table(DynamicRecords(a), 7)| == 112
  {
    var rows := DynamicRecords(a);
    assert AllWide(rows, 16) by {
      forall i | 0 <= i < 7
        ensures Width(rows[i], 0) == 16
      {
        assert |rows[i]| == 2 && rows[i][0].width == 8 && rows[i][1].width == 8;
        assert Width(rows[i], 1) == 8;
      }
    }
    TableLength(rows, 7, 16);
  }

  lemma {:induction false} HeadLengths(ks: seq<Kernel>, a: Front, b: Back, l: nat)
    requires Usable(ks) && Packable(ks, a, b, l) && Laid(ks, a, b, l)
    ensures HeadChunk(ks, a, b, l, 0).End() == 64
    ensures forall j :: 1 <= j < 9 ==> HeadChunk(ks, a, b, l, j).End() == 64 + 56 * j
    ensures HeadChunk(ks, a, b, l, 9).End() == 548
    ensures HeadChunk(ks, a, b, l, 10).End() == a.dynsymOff + a.dynsymSize
    ensures HeadChunk(ks, a, b, l, 11).End() == a.gnuOff + a.gnuSize
    ensures HeadChunk(ks, a, b, l, 12).End() == a.hashOff + a.hashSize
    ensures HeadChunk(ks, a, b, l, 13).End() == a.dynstrOff + a.dynstrLen
    ensures HeadChunk(ks, a, b, l, 14).End() == a.roEnd
  {
    hide Fits, FrontOk, BackOk, Dynstr, DynEntries, Phdrs, Rodata, Note, Width, Table;
    HeaderWidth(b.shoff);
    TableLength(EntryRecords(DynEntries(ks, a)), 2 * |ks| + 1, 24);
    forall j | 1 <= j < 9
      ensures HeadChunk(ks, a, b, l, j).End() == 64 + 56 * j
    {
      PhdrWidth(Phdrs(a, b, l)[j - 1]);
    }
  }

  lemma {:induction false} BackLengths(ks: seq<Kernel>, a: Front, b: Back, l: nat)
    requires Usable(ks) && Packable(ks, a, b, l) && Laid(ks, a, b, l)
    ensures BackChunk(ks, a, b, l, 16).End() == b.dynOff + 112
    ensures BackChunk(ks, a, b, l, 17).End() == b.commentOff + 40
    ensures BackChunk(ks, a, b, l, 18).End() == b.symtabOff + b.symtabSize
    ensures BackChunk(ks, a, b, l, 19).End() == b.shstrOff + 112
    ensures BackChunk(ks, a, b, l, 20).End() == b.strtabOff + b.strtabLen
    ensures BackChunk(ks, a, b, l, 21).End() == b.shoff + 64 * 14
  {
    hide Fits, FrontOk, BackOk, Dynstr, AllEntries, Comment, Width, Table, Strtab, Sections, DynamicRecords;
    hide SectionNames;
    DynamicWidth(a);
    TableLength(EntryRecords(AllEntries(ks, a, b.dynAddr)), 2 * |ks| + 2, 24);
    TableLength(SectionRecords(Sections(a, b, l)), 14, 64);
    ShstrtabIs();
    StrtabIs(ks);
  }

  /** _synth_elf writes at increasing offsets, without overlap. */
  lemma {:induction false} WritesInOrder(ks: seq<Kernel>, a: Front, b: Back, text: Bytes)
    requires Usable(ks) && Packable(ks, a, b, |text|) && Laid(ks, a, b, |text|)
    ensures Ordered(Chunks(ks, a, b, text))
  {
    hide Packable, Usable, Rodata, Note, Dynstr, DynEntries, Phdrs, Table, AllEntries, Comment, Strtab, Sections;
    hide DynamicRecords;
    hide SegmentStart, AlignSkew, PagePadding, Shstrtab, SectionRecords, EntryRecords, PackRecord;
    var cs, l := Chunks(ks, a, b, text), |text|;
    HeadLengths(ks, a, b, l);
    BackLengths(ks, a, b, l);
    forall i | 0 < i < 22
      ensures cs[i - 1].End() <= cs[i].off
    {
      assert cs[i] == ChunkOf(ks, a, b, text, i) && cs[i - 1] == ChunkOf(ks, a, b, text, i - 1);
    }
  }

  // ---- headers ----

  lemma {:induction false} HeaderReads(data: Bytes, shoff: nat)
    requires Fits(HeaderRecord(shoff)) && At(data, 0, IDENT + PackRecord(HeaderRecord(shoff)))
    ensures |data| >= 64 && data[..16] == IDENT
    ensures U(data, 32, 8) == 64 && U(data, 40, 8) == shoff && U(data, 54, 2) == 56 && U(data, 56, 2) == 8
    ensures U(data, 58, 2) == 64 && U(data, 60, 2) == 14 && U(data, 62, 2) == 12
  {
    hide Fits, U, PackFrom;
    var r := HeaderRecord(shoff);
    AtConcat(data, 0, IDENT, PackRecord(r));
    assert data[..16] == data[0..16];
    hide At;
    FieldRead(data, 16, r, 0);
    FieldRead(data, 18, r, 1);
    FieldRead(data, 20, r, 2);
    FieldRead(data, 24, r, 3);
    FieldRead(data, 32, r, 4);
    FieldRead(data, 40, r, 5);
    CountsRead(data, shoff);
  }

  lemma {:induction false} CountsRead(data: Bytes, shoff: nat)
    requires Fits(HeaderRecord(shoff)) && At(data, 48, PackFrom(HeaderRecord(shoff), 6))
    ensures |data| >= 64 && U(data, 54, 2) == 56 && U(data, 56, 2) == 8
    ensures U(data, 58, 2) == 64 && U(data, 60, 2) == 14 && U(data, 62, 2) == 12
  {
    hide Fits, U, PackFrom, At;
    var r := HeaderRecord(shoff);
    FieldRead(data, 48, r, 6);
    FieldRead(data, 52, r, 7);
    FieldRead(data, 54, r, 8);
    FieldRead(data, 56, r, 9);
    FieldRead(data, 58, r, 10);
    FieldRead(data, 60, r, 11);
    FieldRead(data, 62, r, 12);
  }

  lemma {:induction false} SectionsRead(data: Bytes, off: nat, s: seq<Section>)
    requires AllFit(SectionRecords(s)) && At(data, off, Table(SectionRecords(s), |s|))
    ensures off + 64 * |s| <= |data| && ParseSections(data, off, |s|) == s
  {
    hide Fits, ParseSection, SectionRecord, Table, Width;
    var rows := SectionRecords(s);
    TableLength(rows, |s|, 64);
    forall i | 0 <= i < |s|
      ensures ParseSection(data, off + 64 * i) == s[i]
    {
      RowAt(rows, |s|, 64, i);
      AtWithin(data, off, Table(rows, |s|), 64 * i, PackRecord(rows[i]));
      SectionRoundTrip(data, off + 64 * i, s[i]);
    }
  }

  lemma {:induction false} PhdrsRead(data: Bytes, h: seq<Phdr>)
    requires |h| == 8 && |data| >= 512
    requires forall i :: 0 <= i < 8 ==> Fits(PhdrRecord(h[i])) && At(data, 64 + 56 * i, PackRecord(PhdrRecord(h[i])))
    ensures ParsePhdrs(data, 64, 8) == h
  {
    hide Fits, ParsePhdr, PhdrRecord, At;
    forall i | 0 <= i < 8
      ensures ParsePhdr(data, 64 + 56 * i) == h[i]
    {
      PhdrRoundTrip(data, 64 + 56 * i, h[i]);
    }
  }

  /** Payloads and tables lie in the file, the tables at its end. */
  lemma {:induction false} InFile(ks: seq<Kernel>, a: Front, b: Back, l: nat, i: nat)
    requires Laid(ks, a, b, l) && i < 14
    ensures var s := Sections(a, b, l)[i]; !s.Nobits() ==> s.offset + s.size <= b.shoff
  {
    hide Dynstr, SegmentStart, AlignSkew, PagePadding;
  }

  function ParsedAs(data: Bytes, a: Front, b: Back, l: nat): (e: Elf)
    ensures |e.sections| == 14 && |e.phdrs| == 8
  {
    Elf(data, 64, b.shoff, 8, 14, 12, Phdrs(a, b, l), Sections(a, b, l))
  }

  lemma {:induction false} ParseElfIs(data: Bytes, shoff: nat, h: seq<Phdr>, s: seq<Section>)
    requires 512 <= |data| && data[..16] == IDENT && shoff + 64 * 14 <= |data|
    requires U(data, 32, 8) == 64 && U(data, 40, 8) == shoff && U(data, 54, 2) == 56 && U(data, 56, 2) == 8
    requires U(data, 58, 2) == 64 && U(data, 60, 2) == 14 && U(data, 62, 2) == 12
    requires ParsePhdrs(data, 64, 8) == h && ParseSections(data, shoff, 14) == s
    requires forall i :: 0 <= i < |s| ==> SectionInFile(s[i], |data|)
    ensures ParseElf(data) == Some(Elf(data, 64, shoff, 8, 14, 12, h, s))
  {
    hide SectionInFile, U, ParseSections, ParsePhdrs;
    assert data[..4] == data[..16][..4] && data[4] == data[..16][4] && data[5] == data[..16][5];
  }

  lemma {:induction false} ChunkHere(ks: seq<Kernel>, a: Front, b: Back, text: Bytes, j: nat)
    requires Usable(ks) && Packable(ks, a, b, |text|) && Laid(ks, a, b, |text|) && j < 22
    ensures var c := ChunkOf(ks, a, b, text, j); At(Written(Chunks(ks, a, b, text), 22), c.off, c.data)
  {
    hide Laid, Usable, Packable, Written, Chunks, Ordered, ChunkOf, At;
    WritesInOrder(ks, a, b, text);
    ChunkAt(Chunks(ks, a, b, text), j);
  }

  lemma {:induction false} FileLength(ks: seq<Kernel>, a: Front, b: Back, text: Bytes)
    requires Usable(ks) && Packable(ks, a, b, |text|) && Laid(ks, a, b, |text|)
    ensures |Written(Chunks(ks, a, b, text), 22)| == b.shoff + 64 * 14
  {
    hide Laid, Usable, Packable, Written, Chunks, Ordered, BackChunk, HeadChunk;
    WritesInOrder(ks, a, b, text);
    WrittenLength(Chunks(ks, a, b, text), 22);
    BackLengths(ks, a, b, |text|);
  }

  lemma {:induction false} HeadersAt(ks: seq<Kernel>, a: Front, b: Back, text: Bytes)
    requires Usable(ks) && Packable(ks, a, b, |text|) && Laid(ks, a, b, |text|)
    ensures var data, l := Written(Chunks(ks, a, b, text), 22), |text|;
      && At(data, 0, IDENT + PackRecord(HeaderRecord(b.shoff)))
      && At(data, b.shoff, Table(SectionRecords(Sections(a, b, l)), 14))
      && forall i :: 0 <= i < 8 ==> At(data, 64 + 56 * i, PackRecord(PhdrRecord(Phdrs(a, b, l)[i])))
  {
    hide Laid, Usable, Written, Chunks, At, Fits, PackRecord, HeaderRecord, PhdrRecord, Phdrs, Sections, Table;
    hide SectionRecords;
    hide EntryRecords, DynEntries, AllEntries, DynamicRecords, Rodata, Dynstr, Strtab, Shstrtab, Note, Comment;
    ChunkHere(ks, a, b, text, 0);
    ChunkHere(ks, a, b, text, 21);
    forall i | 0 <= i < 8
      ensures At(Written(Chunks(ks, a, b, text), 22), 64 + 56 * i, PackRecord(PhdrRecord(Phdrs(a, b, |text|)[i])))
    {
      ChunkHere(ks, a, b, text, i + 1);
    }
  }

  lemma {:induction false} PastHeaders(ks: seq<Kernel>, a: Front, b: Back, l: nat)
    requires Laid(ks, a, b, l)
    ensures b.shoff >= 512
  {
    hide Dynstr, SegmentStart, AlignSkew, PagePadding;
  }

  /** Parsing a written object gives back the headers it was written from. */
  lemma {:induction false} Parses(ks: seq<Kernel>, a: Front, b: Back, text: Bytes)
    requires Usable(ks) && Packable(ks, a, b, |text|) && Laid(ks, a, b, |text|)
    ensures var data := Written(Chunks(ks, a, b, text), 22);
      |data| == b.shoff + 64 * 14 && ParseElf(data) == Some(ParsedAs(data, a, b, |text|))
  {
    hide Laid, Usable, Written, Chunks, At, Fits, PackRecord, HeaderRecord, PhdrRecord, Phdrs, Sections, Table;
    hide SectionRecords;
    hide EntryRecords, DynEntries, AllEntries, DynamicRecords, ParseElf, SectionInFile, U, ParseSections, ParsePhdrs;
    var data, l := Written(Chunks(ks, a, b, text), 22), |text|;
    HeadersAt(ks, a, b, text);
    FileLength(ks, a, b, text);
    PastHeaders(ks, a, b, l);
    HeaderReads(data, b.shoff);
    SectionsRead(data, b.shoff, Sections(a, b, l));
    PhdrsRead(data, Phdrs(a, b, l));
    forall i | 0 <= i < 14
      ensures SectionInFile(Sections(a, b, l)[i], |data|)
    {
      InFile(ks, a, b, l, i);
      Inside(Sections(a, b, l)[i], b.shoff, |data|);
    }
    ParseElfIs(data, b.shoff, Phdrs(a, b, l), Sections(a, b, l));
  }

  lemma Inside(s: Section, end: nat, size: nat)
    requires end <= size && (!s.Nobits() ==> s.offset + s.size <= end)
    ensures SectionInFile(s, size)
  {
  }

  // ---- payloads, names and symbols ----

  ghost predicate Holds(e: Elf, i: nat, b: Bytes) {
    i < |e.sections| && !e.sections[i].Nobits() && e.sections[i].size == |b| && At(e.data, e.sections[i].offset, b)
  }

  lemma HeldPayload(e: Elf, i: nat, b: Bytes)
    requires Holds(e, i, b)
    ensures Payload(e, e.sections[i]) == b
  {
  }

  /** .dynsym, .dynstr, .rodata and .text. */
  ghost predicate HeadPayloads(e: Elf, ks: seq<Kernel>, a: Front, text: Bytes) {
    && |e.sections| == 14 && Usable(ks) && (forall k :: 0 <= k < |ks| ==> OffsetFits(ks, a, k))
    && AllFit(EntryRecords(DynEntries(ks, a)))
    && Payload(e, e.sections[2]) == Table(EntryRecords(DynEntries(ks, a)), 2 * |ks| + 1)
    && Payload(e, e.sections[5]) == Dynstr(ks) && Payload(e, e.sections[6]) == Rodata(ks, a, |ks|)
    && Payload(e, e.sections[7]) == text
  }

  /** .symtab, .shstrtab and .strtab. */
  ghost predicate BackPayloads(e: Elf, ks: seq<Kernel>, a: Front, dynAddr: nat) {
    && |e.sections| == 14 && AllFit(EntryRecords(AllEntries(ks, a, dynAddr)))
    && Payload(e, e.sections[11]) == Table(EntryRecords(AllEntries(ks, a, dynAddr)), 2 * |ks| + 2)
    && Payload(e, e.sections[12]) == Shstrtab() && Payload(e, e.sections[13]) == Strtab(ks)
  }

  /** Everything a reader sees of a written object: its headers and the payloads the checks look into. */
  ghost predicate Reads(e: Elf, ks: seq<Kernel>, a: Front, b: Back, text: Bytes) {
    && e == ParsedAs(e.data, a, b, |text|) && |e.data| == b.shoff + 64 * 14
    && HeadPayloads(e, ks, a, text) && BackPayloads(e, ks, a, b.dynAddr)
  }

  lemma {:induction false} HeldNames(ks: seq<Kernel>, a: Front, b: Back, text: Bytes)
    requires Usable(ks) && Packable(ks, a, b, |text|) && Laid(ks, a, b, |text|)
    ensures var e := ParsedAs(Written(Chunks(ks, a, b, text), 22), a, b, |text|);
      Holds(e, 2, Table(EntryRecords(DynEntries(ks, a)), 2 * |ks| + 1)) && Holds(e, 5, Dynstr(ks))
  {
    hide Written, FrontOk, BackOk, Chunks, Phdrs, Table, Dynstr, Rodata, At, DynEntries, EntryRecords, Fits, AllEntries;
    hide DynamicRecords, SectionRecords, PackRecord, Note;
    TableLength(EntryRecords(DynEntries(ks, a)), 2 * |ks| + 1, 24);
    ChunkHere(ks, a, b, text, 10);
    ChunkHere(ks, a, b, text, 13);
  }

  lemma {:induction false} HeldCode(ks: seq<Kernel>, a: Front, b: Back, text: Bytes)
    requires Usable(ks) && Packable(ks, a, b, |text|) && Laid(ks, a, b, |text|)
    ensures var e := ParsedAs(Written(Chunks(ks, a, b, text), 22), a, b, |text|);
      Holds(e, 6, Rodata(ks, a, |ks|)) && Holds(e, 7, text)
  {
    hide Written, FrontOk, BackOk, Chunks, Phdrs, Table, Dynstr, Rodata, At, DynEntries, EntryRecords, Fits, AllEntries;
    hide DynamicRecords, SectionRecords, PackRecord, Note;
    ChunkHere(ks, a, b, text, 14);
    ChunkHere(ks, a, b, text, 15);
  }

  lemma {:induction false} HeldBack(ks: seq<Kernel>, a: Front, b: Back, text: Bytes)
    requires Usable(ks) && Packable(ks, a, b, |text|) && Laid(ks, a, b, |text|)
    ensures var e := ParsedAs(Written(Chunks(ks, a, b, text), 22), a, b, |text|);
      && Holds(e, 11, Table(EntryRecords(AllEntries(ks, a, b.dynAddr)), 2 * |ks| + 2))
      && Holds(e, 12, Shstrtab()) && Holds(e, 13, Strtab(ks))
  {
    hide Written, FrontOk, BackOk, Chunks, Phdrs, Table, Dynstr, Strtab, At, AllEntries, EntryRecords, Fits, DynEntries;
    hide DynamicRecords, SectionRecords, PackRecord, Comment, SectionNames, Strings;
    TableLength(EntryRecords(AllEntries(ks, a, b.dynAddr)), 2 * |ks| + 2, 24);
    ShstrtabIs();
    StrtabIs(ks);
    ChunkHere(ks, a, b, text, 18);
    ChunkHere(ks, a, b, text, 19);
    ChunkHere(ks, a, b, text, 20);
  }

  lemma {:induction false} HeadRead(ks: seq<Kernel>, a: Front, b: Back, text: Bytes)
    requires Usable(ks) && Packable(ks, a, b, |text|) && Laid(ks, a, b, |text|)
    ensures HeadPayloads(ParsedAs(Written(Chunks(ks, a, b, text), 22), a, b, |text|), ks, a, text)
  {
    hide Laid, Usable, Written, Chunks, Phdrs, Sections, Table, Dynstr, Rodata, Holds, Payload, Fits, OffsetFits;
    hide AllEntries, DynEntries, EntryRecords, SectionRecords, DynamicRecords, HeaderRecord;
    var e := ParsedAs(Written(Chunks(ks, a, b, text), 22), a, b, |text|);
    HeldNames(ks, a, b, text);
    HeldCode(ks, a, b, text);
    HeldPayload(e, 2, Table(EntryRecords(DynEntries(ks, a)), 2 * |ks| + 1));
    HeldPayload(e, 5, Dynstr(ks));
    HeldPayload(e, 6, Rodata(ks, a, |ks|));
    HeldPayload(e, 7, text);
  }

  lemma {:induction false} BackRead(ks: seq<Kernel>, a: Front, b: Back, text: Bytes)
    requires Usable(ks) && Packable(ks, a, b, |text|) && Laid(ks, a, b, |text|)
    ensures BackPayloads(ParsedAs(Written(Chunks(ks, a, b, text), 22), a, b, |text|), ks, a, b.dynAddr)
  {
    hide Laid, Usable, Written, Chunks, Phdrs, Sections, Table, Strtab, Shstrtab, Holds, Payload, Fits, OffsetFits;
    hide AllEntries, DynEntries, EntryRecords, SectionRecords, DynamicRecords, HeaderRecord;
    var e := ParsedAs(Written(Chunks(ks, a, b, text), 22), a, b, |text|);
    HeldBack(ks, a, b, text);
    HeldPayload(e, 11, Table(EntryRecords(AllEntries(ks, a, b.dynAddr)), 2 * |ks| + 2));
    HeldPayload(e, 12, Shstrtab());
    HeldPayload(e, 13, Strtab(ks));
  }

  /** A written object parses, and the reader sees what it was written from. */
  lemma {:induction false} ReadsBack(ks: seq<Kernel>, a: Front, b: Back, text: Bytes)
    requires Usable(ks) && Packable(ks, a, b, |text|) && Laid(ks, a, b, |text|)
    ensures var data := Written(Chunks(ks, a, b, text), 22);
      ParseElf(data) == Some(ParsedAs(data, a, b, |text|)) && Reads(ParsedAs(data, a, b, |text|), ks, a, b, text)
  {
    hide Laid, Usable, Packable, Written, Chunks, Phdrs, Sections, HeadPayloads, BackPayloads, ParseElf;
    Parses(ks, a, b, text);
    HeadRead(ks, a, b, text);
    BackRead(ks, a, b, text);
  }
}
