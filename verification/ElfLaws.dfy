/** What the ELF reader of the code-end checker accepts and where it finds each field, on the bytes. */
module ElfLaws {
  import opened Wrappers
  import opened Bytes
  import opened ElfFormat

  /** The little-endian value of data[lo..hi]. */
  function Value(data: Bytes, lo: nat, hi: nat): (v: nat)
    requires lo <= hi <= |data|
  {
    Unpack(data[lo..hi])
  }

  /** Header i of the table at off does not say that its payload runs past the end of the file. */
  ghost predicate PayloadInFile(data: Bytes, off: nat, i: nat)
    requires off + 64 * i + 64 <= |data|
  {
    var base := off + 64 * i;
    var kind := Value(data, base + 4, base + 8);
    kind != 0 && kind != 8 ==> Value(data, base + 24, base + 32) + Value(data, base + 32, base + 40) <= |data|
  }

  lemma {:induction false} SectionInFileIs(data: Bytes, off: nat, i: nat)
    requires off + 64 * i + 64 <= |data|
    ensures SectionInFile(ParseSection(data, off + 64 * i), |data|) <==> PayloadInFile(data, off, i)
  {
    hide Unpack;
  }

  lemma {:induction false} PayloadsInFile(data: Bytes, off: nat, n: nat, sections: seq<Section>)
    requires off + 64 * n <= |data| && |sections| == n
    requires forall i :: 0 <= i < n ==> sections[i] == ParseSection(data, off + 64 * i)
    ensures (forall i :: 0 <= i < |sections| ==> SectionInFile(sections[i], |data|))
       <==> forall i: nat :: i < n ==> PayloadInFile(data, off, i)
  {
    hide ParseSection, SectionInFile, PayloadInFile;
    forall i: nat | i < n
      ensures SectionInFile(sections[i], |data|) <==> PayloadInFile(data, off, i)
    {
      SectionInFileIs(data, off, i);
    }
    if forall i :: 0 <= i < |sections| ==> SectionInFile(sections[i], |data|) {
      forall i: nat | i < n
        ensures PayloadInFile(data, off, i)
      {
        assert SectionInFile(sections[i], |data|);
      }
    }
  }

  /** The file starts as a 64-bit little-endian ELF file with header entries of the known sizes. */
  ghost predicate Identified(data: Bytes) {
    && |data| >= 64 && data[0] == 0x7F && data[1] == 0x45 && data[2] == 0x4C && data[3] == 0x46
    && data[4] == 2 && data[5] == 1 && Value(data, 58, 60) == 64 && Value(data, 54, 56) == 56
  }

  lemma {:induction false} IdentifiedIs(data: Bytes)
    ensures Identified(data) <==>
      && !(|data| < 64 || data[..4] != [0x7F, 0x45, 0x4C, 0x46] || data[4] != 2 || data[5] != 1)
      && !(U(data, 58, 2) != 64 || U(data, 54, 2) != 56)
  {
    hide Unpack;
    if |data| >= 64 {
      assert data[..4] == [0x7F, 0x45, 0x4C, 0x46] <==>
        data[0] == 0x7F && data[1] == 0x45 && data[2] == 0x4C && data[3] == 0x46;
    }
  }

  /** A file is read if and only if it is identified and its tables and payloads lie inside it. */
  lemma {:induction false} ParsedExactly(data: Bytes)
    ensures ParseElf(data).Some? <==>
      && Identified(data)
      && Value(data, 32, 40) + 56 * Value(data, 56, 58) <= |data|
      && Value(data, 40, 48) + 64 * Value(data, 60, 62) <= |data|
      && forall i: nat :: i < Value(data, 60, 62) ==> PayloadInFile(data, Value(data, 40, 48), i)
  {
    hide Unpack, ParseSections, ParsePhdrs, SectionInFile, PayloadInFile, Identified;
    IdentifiedIs(data);
    if Identified(data) {
      var phoff, shoff, phnum, shnum := U(data, 32, 8), U(data, 40, 8), U(data, 56, 2), U(data, 60, 2);
      if phoff + 56 * phnum <= |data| && shoff + 64 * shnum <= |data| {
        PayloadsInFile(data, shoff, shnum, ParseSections(data, shoff, shnum));
      }
    }
  }

  /** The fields of the ELF header that are used. */
  lemma {:induction false} HeaderFields(data: Bytes)
    requires ParseElf(data).Some?
    ensures var e := ParseElf(data).value;
      && e.data == data && |data| >= 64
      && e.phoff == Value(data, 32, 40) && e.shoff == Value(data, 40, 48) && e.phnum == Value(data, 56, 58)
      && e.shnum == Value(data, 60, 62) && e.shstrndx == Value(data, 62, 64)
      && |e.phdrs| == e.phnum && |e.sections| == e.shnum
  {
    hide ParseSections, ParsePhdrs, SectionInFile, Unpack;
  }

  /** The fields of each section header. */
  lemma {:induction false} SectionFields(e: Elf, i: nat)
    requires WellParsed(e) && i < e.shnum
    ensures |e.sections| == e.shnum && e.shoff + 64 * i + 64 <= |e.data|
    ensures var s, b := e.sections[i], e.shoff + 64 * i;
      && s.nameIdx == Value(e.data, b, b + 4) && s.kind == Value(e.data, b + 4, b + 8)
      && s.flags == Value(e.data, b + 8, b + 16) && s.addr == Value(e.data, b + 16, b + 24)
      && s.offset == Value(e.data, b + 24, b + 32) && s.size == Value(e.data, b + 32, b + 40)
      && s.link == Value(e.data, b + 40, b + 44) && s.info == Value(e.data, b + 44, b + 48)
      && s.align == Value(e.data, b + 48, b + 56) && s.entsize == Value(e.data, b + 56, b + 64)
  {
    hide ParsePhdrs, SectionInFile, Unpack;
    assert e.sections[i] == ParseSection(e.data, e.shoff + 64 * i);
    hide ParseSections;
  }

  /** The fields of each program header. */
  lemma {:induction false} PhdrFields(e: Elf, i: nat)
    requires WellParsed(e) && i < e.phnum
    ensures |e.phdrs| == e.phnum && e.phoff + 56 * i + 56 <= |e.data|
    ensures var h, b := e.phdrs[i], e.phoff + 56 * i;
      && h.kind == Value(e.data, b, b + 4) && h.flags == Value(e.data, b + 4, b + 8)
      && h.offset == Value(e.data, b + 8, b + 16) && h.vaddr == Value(e.data, b + 16, b + 24)
      && h.paddr == Value(e.data, b + 24, b + 32) && h.filesz == Value(e.data, b + 32, b + 40)
      && h.memsz == Value(e.data, b + 40, b + 48) && h.align == Value(e.data, b + 48, b + 56)
  {
    hide ParseSections, SectionInFile, Unpack;
    assert e.phdrs[i] == ParsePhdr(e.data, e.phoff + 56 * i);
    hide ParsePhdrs;
  }

  lemma {:induction false} RunIs(buf: Bytes, off: nat)
    requires off <= |buf|
    ensures var r := UpToZero(buf, off);
      && off + |r| <= |buf| && (off + |r| < |buf| ==> buf[off + |r|] == 0)
      && forall k :: 0 <= k < |r| ==> r[k] == buf[off + k] && r[k] != 0
    decreases |buf| - off
  {
    if off < |buf| && buf[off] != 0 {
      RunIs(buf, off + 1);
    }
  }

  /** n spells the bytes of buf from off up to the next zero byte or the end, bytes above 127 replaced. */
  ghost predicate Spells(buf: Bytes, off: nat, n: Name) {
    && off + |n| <= |buf| && (off + |n| < |buf| ==> buf[off + |n|] == 0)
    && forall k :: 0 <= k < |n| ==> Spelt(buf, off + k, n[k])
  }

  ghost predicate Spelt(buf: Bytes, at: nat, c: int) {
    at < |buf| && buf[at] != 0 && c == if buf[at] <= 127 then buf[at] else 0xFFFD
  }

  /** A name is spelt by its table from its offset on, and empty past the end of the table. */
  lemma {:induction false} NameIs(buf: Bytes, off: nat)
    ensures if off < |buf| then Spells(buf, off, CStr(buf, off)) else CStr(buf, off) == []
  {
    if off < |buf| {
      RunIs(buf, off);
      var r := UpToZero(buf, off);
      hide UpToZero;
      var n := Decode(r);
      assert CStr(buf, off) == n && |n| == |r|;
      forall k | 0 <= k < |n|
        ensures Spelt(buf, off + k, n[k])
      {
        assert n[k] == Character(r[k]) && r[k] == buf[off + k];
      }
    }
  }

  /** The fields of each symbol: 24 bytes, the name in the table's string section. */
  lemma {:induction false} SymbolFields(e: Elf, i: nat, j: nat)
    requires i < |e.sections| && e.sections[i].kind != 8 && e.sections[i].offset + e.sections[i].size <= |e.data|
    ensures SymbolCount(e, e.sections[i]) == e.sections[i].size / 24
    ensures 24 * j + 24 <= e.sections[i].size && e.sections[i].link < |e.sections| ==>
      && j < SymbolCount(e, e.sections[i])
      && var y, b := SymbolAt(e, e.sections[i], j), e.sections[i].offset + 24 * j;
         && y.name == CStr(Payload(e, e.sections[e.sections[i].link]), Value(e.data, b, b + 4))
         && y.info == Value(e.data, b + 4, b + 5) && y.other == Value(e.data, b + 5, b + 6)
         && y.shndx == Value(e.data, b + 6, b + 8) && y.value == Value(e.data, b + 8, b + 16)
         && y.size == Value(e.data, b + 16, b + 24)
  {
    hide CStr, Unpack;
    var s := e.sections[i];
    assert Payload(e, s) == e.data[s.offset..s.offset + s.size];
    hide Payload;
    if 24 * j + 24 <= s.size && s.link < |e.sections| {
      SymbolFieldsOf(e, s, j);
    }
  }

  lemma {:induction false} SymbolFieldsOf(e: Elf, s: Section, j: nat)
    requires s.offset + s.size <= |e.data| && Payload(e, s) == e.data[s.offset..s.offset + s.size]
    requires 24 * j + 24 <= s.size && s.link < |e.sections|
    ensures j < SymbolCount(e, s)
    ensures var y, b := SymbolAt(e, s, j), s.offset + 24 * j;
      && y.name == CStr(Payload(e, e.sections[s.link]), Value(e.data, b, b + 4))
      && y.info == Value(e.data, b + 4, b + 5) && y.other == Value(e.data, b + 5, b + 6)
      && y.shndx == Value(e.data, b + 6, b + 8) && y.value == Value(e.data, b + 8, b + 16)
      && y.size == Value(e.data, b + 16, b + 24)
  {
    hide CStr, Payload, U, Value;
    var o := 24 * j;
    Inside(e.data, s.offset, s.size, o, 4);
    Inside(e.data, s.offset, s.size, o + 4, 1);
    Inside(e.data, s.offset, s.size, o + 5, 1);
    Inside(e.data, s.offset, s.size, o + 6, 2);
    Inside(e.data, s.offset, s.size, o + 8, 8);
    Inside(e.data, s.offset, s.size, o + 16, 8);
  }

  lemma {:induction false} Inside(data: Bytes, off: nat, size: nat, at: nat, n: nat)
    requires off + size <= |data| && at + n <= size
    ensures U(data[off..off + size], at, n) == Value(data, off + at, off + at + n)
  {
    var x, y := data[off..off + size][at..at + n], data[off + at..off + at + n];
    forall k | 0 <= k < n
      ensures x[k] == y[k]
    {
      assert data[off..off + size][at + k] == data[off + at + k];
    }
    assert x == y;
  }
}
