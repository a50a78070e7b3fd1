/** What acceptance by the code-end checker means for OLD, and for the fields and symbols of both files,
    on the bytes and the header fields themselves. */
module CodeEndConverse {
  import opened Wrappers
  import opened Bytes
  import opened ElfFormat
  import opened CodeEnd
  import opened CodeEndLaws

  // ---- OLD, byte for byte ----

  lemma {:induction false} OldGapByte(p: Pair, k: nat)
    requires p.Indexed() && GapsZero(p) && p.OldEnd() <= k < p.Fo().offset <= |p.o.data|
    ensures p.o.data[k] == 0
  {
    assert Slice(p.o.data, p.OldEnd(), p.Fo().offset)[k - p.OldEnd()] == p.o.data[k];
  }

  lemma {:induction false} OldHeadByte(p: Pair, k: nat)
    requires p.Indexed() && HeadSame(p.o, p.n, p.OldEnd()) && k < p.OldEnd() <= |p.o.data| && p.OldEnd() <= |p.n.data|
    requires p.n.phoff == p.o.phoff && p.n.phnum == p.o.phnum
    requires !(0x28 <= k < 0x30) && !(p.o.phoff <= k < p.o.phoff + 56 * p.o.phnum)
    ensures p.o.data[k] == p.n.data[k]
  {
    assert HeadByte(p.o, k) == HeadByte(p.n, k);
  }

  lemma {:induction false} AllSections(p: Pair)
    requires Accepted(p) && p.Indexed()
    ensures forall i :: 0 <= i < |p.o.sections| ==> SectionOk(p, i)
  {
    hide *;
    forall i | 0 <= i < |p.o.sections|
      ensures SectionOk(p, i)
    {
      SectionCheck(p, i);
    }
  }

  /** Every byte of OLD before its section headers, in an accepted pair: NEW's byte in place, a zero between
      .text and the next section, or NEW's byte shifted back; only e_shoff, the program headers and moved
      symbol values are exempt. */
  lemma {:induction false} OldByte(p: Pair, k: nat)
    requires Accepted(p) && k < |p.o.data|
    ensures p.Indexed()
    ensures k < p.OldEnd() && !(0x28 <= k < 0x30) && !(p.o.phoff <= k < p.o.phoff + 56 * p.o.phnum) ==>
      k < |p.n.data| && p.o.data[k] == p.n.data[k]
    ensures p.OldEnd() <= k < p.Fo().offset ==> p.o.data[k] == 0
    ensures p.Fo().offset <= k < p.o.shoff && !SymbolMask(p, p.o, k) ==>
      0 <= k + p.FileShift() < |p.n.data| && p.o.data[k] == p.n.data[k + p.FileShift()]
  {
    hide Accepted, OnlyText, IsFirst, WellParsed, PlacementOk, PostFile, TextHeaderOk, TailOk, TailLength, PhdrsOk;
    hide TablesOk, PostSame, GapsZero, HeadSame;
    hide HeaderSame, U, ParsePhdrs, ParseSections, Payload, SectionOk, SectionInFile, SameKind, Slice, SymbolMask;
    hide TableAtEnd;
    Checks(p);
    TextGrows(p);
    SameLayout(p);
    OldTableAfterFirst(p);
    if k < p.OldEnd() {
      if !(0x28 <= k < 0x30) && !(p.o.phoff <= k < p.o.phoff + 56 * p.o.phnum) {
        OldHeadByte(p, k);
      }
    } else if k < p.Fo().offset {
      OldGapByte(p, k);
    } else if k < p.o.shoff && !SymbolMask(p, p.o, k) {
      AllSections(p);
      MaskShift(p, k);
      ShiftedByte(p, k + p.FileShift());
    }
  }

  // ---- the same layout and the same NEW: the same OLD ----

  /** Two pairs with one NEW whose OLD files have the same headers. */
  ghost predicate SameHeaders(p: Pair, q: Pair) {
    p.n == q.n && p.o.sections == q.o.sections && p.o.phdrs == q.o.phdrs
  }

  lemma {:induction false} SameFirst(p: Pair, q: Pair)
    requires p.o.sections == q.o.sections && p.t == q.t < |p.o.sections|
    requires IsFirst(p.o, p.t, p.f) && IsFirst(q.o, q.t, q.f)
    ensures p.f == q.f
  {
    assert forall i :: 0 <= i < |p.o.sections| ==> PostFile(p.o, p.t, i) == PostFile(q.o, q.t, i);
    hide PostFile;
  }

  lemma {:induction false} SameIndicesBack(p: Pair, q: Pair)
    requires Accepted(p) && Accepted(q) && SameHeaders(p, q)
    ensures p.Indexed() && q.Indexed() && p.t == q.t == p.u == q.u && p.f == q.f
  {
    SameText(p);
    SameText(q);
    Checks(p);
    Checks(q);
    assert p.t < |p.o.sections| by { hide Accepted, OnlyText; }
    hide *;
    OneText(p.n, p.u, q.u);
    assert p.n == q.n && p.o.sections == q.o.sections by { HeadersOf(p, q); }
    SameFirst(p, q);
  }

  lemma HeadersOf(p: Pair, q: Pair)
    requires SameHeaders(p, q)
    ensures p.n == q.n && p.o.sections == q.o.sections && p.o.phdrs == q.o.phdrs
  {
  }

  /** Everything about the two OLD files that their bytes are rebuilt from. */
  ghost predicate AgreeBack(p: Pair, q: Pair) {
    && p.Indexed() && q.Indexed() && p.t == q.t && p.f == q.f && SameHeaders(p, q)
    && p.o.shoff == q.o.shoff && |p.o.data| == |q.o.data| == p.o.shoff + 64 * p.o.shnum
    && p.o.phoff == q.o.phoff && p.o.phnum == q.o.phnum && p.o.shnum == q.o.shnum && |p.o.data| >= 64
    && p.o.phoff + 56 * p.o.phnum <= |p.o.data|
    && ParsePhdrs(p.o.data, p.o.phoff, p.o.phnum) == ParsePhdrs(q.o.data, p.o.phoff, p.o.phnum)
    && ParseSections(p.o.data, p.o.shoff, p.o.shnum) == ParseSections(q.o.data, p.o.shoff, p.o.shnum)
    && U(p.o.data, 40, 8) == U(q.o.data, 40, 8)
  }

  lemma {:induction false} OldLayout(p: Pair)
    requires WellParsed(p.o) && TableAtEnd(p.o)
    ensures |p.o.data| == p.o.shoff + 64 * p.o.shnum && p.o.shoff == U(p.o.data, 40, 8) && |p.o.data| >= 64
    ensures p.o.phoff + 56 * p.o.phnum <= |p.o.data| && p.o.phdrs == ParsePhdrs(p.o.data, p.o.phoff, p.o.phnum)
    ensures p.o.sections == ParseSections(p.o.data, p.o.shoff, p.o.shnum)
  {
    hide U, ParsePhdrs, ParseSections, SectionInFile;
  }

  lemma {:induction false} AgreementBack(p: Pair, q: Pair)
    requires Accepted(p) && Accepted(q) && SameHeaders(p, q)
    ensures AgreeBack(p, q)
  {
    hide Accepted, OnlyText, IsFirst, WellParsed, PlacementOk, PostFile, TextHeaderOk, TailOk, SectionOk;
    hide TablesOk, PostSame, GapsZero, HeadSame, HeaderSame, TableAtEnd, FirstAlloc, PhdrsOk, U, ParsePhdrs;
    hide ParseSections;
    SameIndicesBack(p, q);
    Checks(p);
    Checks(q);
    SameLayout(p);
    SameLayout(q);
    OldLayout(p);
    OldLayout(q);
  }

  lemma SameDelta(p: Pair, q: Pair, shndx: nat)
    requires p.Indexed() && q.Indexed() && p.t == q.t && p.n == q.n && p.o.sections == q.o.sections
    ensures Delta(p, shndx) == Delta(q, shndx)
  {
  }

  lemma {:induction false} SymbolShared(p: Pair, i: nat, j: nat)
    requires p.Indexed() && i < |p.o.sections| && TableOk(p, i) && j < SymbolCount(p.o, p.o.sections[i])
    ensures p.n.sections[i].link < |p.n.sections|
    ensures SymbolCount(p.o, p.o.sections[i]) == SymbolCount(p.n, p.n.sections[i])
    ensures SymbolSection(p.o, p.o.sections[i], j) == SymbolAt(p.n, p.n.sections[i], j).shndx
  {
    hide SymbolCount, SymbolAt, SymbolSection, Delta;
    assert SymbolOk(p, SymbolAt(p.o, p.o.sections[i], j), SymbolAt(p.n, p.n.sections[i], j));
    FieldOf(p, i, j);
  }

  /** Which symbols move is read off NEW. */
  lemma {:induction false} MovesBack(p: Pair, q: Pair, i: nat, j: nat)
    requires p.Indexed() && q.Indexed() && p.t == q.t && p.n == q.n && p.o.sections == q.o.sections
    requires TablesOk(p) && TablesOk(q) && Moves(p, i, j)
    ensures Moves(q, i, j)
    ensures SymbolSection(p.o, p.o.sections[i], j) == SymbolSection(q.o, q.o.sections[i], j)
  {
    assert p.o.sections[i].IsSymbolTable() && TableOk(p, i) && TableOk(q, i);
    assert ClassOf(p.o, p.t, i) == ClassOf(q.o, q.t, i);
    assert SymbolCount(q.o, q.o.sections[i]) == SymbolCount(q.n, q.n.sections[i]);
    hide TablesOk, TableOk, ClassOf, SymbolAt, SymbolSection, SymbolCount, Delta;
    SymbolShared(p, i, j);
    SymbolShared(q, i, j);
    SameDelta(p, q, SymbolSection(p.o, p.o.sections[i], j));
  }

  lemma {:induction false} MaskBack(p: Pair, q: Pair, k: int)
    requires p.Indexed() && q.Indexed() && p.t == q.t && p.n == q.n && p.o.sections == q.o.sections
    requires TablesOk(p) && TablesOk(q) && SymbolMask(p, p.o, k)
    ensures SymbolMask(q, q.o, k)
  {
    hide TablesOk, Moves;
    var i: nat, j: nat :| Moves(p, i, j) && ValueField(p.o, i, j) <= k < ValueField(p.o, i, j) + 8;
    MovesBack(p, q, i, j);
    assert ValueField(q.o, i, j) == ValueField(p.o, i, j);
  }

  lemma {:induction false} ValueBack(p: Pair, q: Pair, i: nat, j: nat, k: nat)
    requires Accepted(p) && Accepted(q) && AgreeBack(p, q) && TablesOk(p) && TablesOk(q) && Moves(p, i, j)
    requires ValueField(p.o, i, j) <= k < ValueField(p.o, i, j) + 8
    ensures k < |p.o.data| && k < |q.o.data| && p.o.data[k] == q.o.data[k]
  {
    hide Accepted, TablesOk, Moves, U, ParsePhdrs, ParseSections, SymbolSection, SymbolCount, Delta;
    MovesBack(p, q, i, j);
    ValueForced(p, i, j);
    ValueForced(q, i, j);
    SameDelta(p, q, SymbolSection(p.o, p.o.sections[i], j));
    var v := ValueField(p.o, i, j);
    FieldBytesEqual(p.o.data, q.o.data, v, 8);
    SliceByte(p.o.data, q.o.data, v, v + 8, k);
  }

  lemma {:induction false} PostBack(p: Pair, q: Pair, k: nat)
    requires Accepted(p) && Accepted(q) && AgreeBack(p, q) && p.Fo().offset <= k < p.o.shoff && k < |p.o.data|
    ensures p.o.data[k] == q.o.data[k]
  {
    hide Accepted, U, ParsePhdrs, ParseSections, TablesOk, OnlyText, IsFirst, WellParsed, PlacementOk, PostFile;
    hide PhdrsOk, PostSame, GapsZero, HeadSame, HeaderSame, TableAtEnd, TailOk, TextHeaderOk, Moves, FirstAlloc;
    Checks(p);
    Checks(q);
    if SymbolMask(p, p.o, k) {
      var i: nat, j: nat :| Moves(p, i, j) && ValueField(p.o, i, j) <= k < ValueField(p.o, i, j) + 8;
      ValueBack(p, q, i, j, k);
    } else {
      hide SymbolMask;
      if SymbolMask(q, q.o, k) {
        MaskBack(q, p, k);
      }
      OldByte(p, k);
      OldByte(q, k);
    }
  }

  lemma {:induction false} HeadBack(p: Pair, q: Pair, k: nat)
    requires Accepted(p) && Accepted(q) && AgreeBack(p, q) && k < p.OldEnd() && k < |p.o.data|
    ensures p.o.data[k] == q.o.data[k]
  {
    hide Accepted, U, ParsePhdrs, ParseSections, SymbolMask, FirstAlloc;
    if p.o.phoff <= k < p.o.phoff + 56 * p.o.phnum {
      PhdrTableBytes(p.o.data, q.o.data, p.o.phoff, p.o.phnum, k);
    } else if 0x28 <= k < 0x30 {
      FieldBytesEqual(p.o.data, q.o.data, 40, 8);
      SliceByte(p.o.data, q.o.data, 40, 48, k);
    } else {
      OldByte(p, k);
      OldByte(q, k);
    }
  }

  lemma {:induction false} SameOldByte(p: Pair, q: Pair, k: nat)
    requires Accepted(p) && Accepted(q) && AgreeBack(p, q) && k < |p.o.data|
    ensures p.o.data[k] == q.o.data[k]
  {
    hide Accepted, U, ParsePhdrs, ParseSections, SymbolMask, FirstAlloc;
    if k >= p.o.shoff {
      SectionTableBytes(p.o.data, q.o.data, p.o.shoff, p.o.shnum, k);
    } else if k >= p.Fo().offset {
      PostBack(p, q, k);
    } else if k >= p.OldEnd() {
      OldByte(p, k);
      OldByte(q, k);
    } else {
      HeadBack(p, q, k);
    }
  }

  lemma AgreeBackLength(p: Pair, q: Pair)
    requires AgreeBack(p, q)
    ensures |p.o.data| == |q.o.data|
  {
    hide ParsePhdrs, ParseSections, U;
  }

  lemma {:induction false} SameOldBytes(p: Pair, q: Pair)
    requires Accepted(p) && Accepted(q) && SameHeaders(p, q)
    ensures p.o.data == q.o.data
  {
    hide *;
    AgreementBack(p, q);
    AgreeBackLength(p, q);
    forall k: nat | k < |p.o.data|
      ensures p.o.data[k] == q.o.data[k]
    {
      SameOldByte(p, q, k);
    }
  }

  /** The checker is determinate the other way round: two OLD files with the same section and program headers
      that it takes for the origin of one NEW are the same file, byte for byte. */
  lemma {:induction false} OldDeterminacy(d1: Bytes, d2: Bytes, new': Bytes)
    requires ParseElf(d1).Some? && ParseElf(d2).Some? && ParseElf(new').Some?
    requires ParseElf(d1).value.sections == ParseElf(d2).value.sections
    requires ParseElf(d1).value.phdrs == ParseElf(d2).value.phdrs
    requires Accepts(ParseElf(d1).value, ParseElf(new').value) && Accepts(ParseElf(d2).value, ParseElf(new').value)
    ensures d1 == d2
  {
    var a, b, n := ParseElf(d1).value, ParseElf(d2).value, ParseElf(new').value;
    assert WellParsed(a) && WellParsed(b) && WellParsed(n) && a.data == d1 && b.data == d2;
    var p: Pair :| p.o == a && p.n == n && Passes(p);
    var q: Pair :| q.o == b && q.n == n && Passes(q);
    assert Accepted(p) && Accepted(q) && SameHeaders(p, q);
    hide *;
    SameOldBytes(p, q);
  }

  // ---- the remaining checks, on the fields of both files ----

  lemma {:induction false} RestChecks(p: Pair)
    requires Accepted(p)
    ensures p.Indexed() && TablesOk(p) && KernelsOk(p) && p.n.shoff % 8 == 0
    ensures forall i :: 0 <= i < |p.o.sections| && p.o.sections[i].IsSymbolTable() ==> DynamicOk(p, i)
  {
    hide WellParsed, OnlyText, HeaderSame, TextHeaderOk, PlacementOk, PhdrsOk, TableAtEnd, HeadSame, TailOk;
    hide GapsZero, TablesOk, PostSame;
    hide SectionsOk, KernelsOk, DynamicOk, PostFile;
  }

  /** In each file section t, and no other, is called `.text` and executable. */
  lemma {:induction false} AcceptedText(p: Pair, i: nat)
    requires Accepted(p) && p.Indexed() && i < |p.o.sections|
    ensures SectionName(p.o, p.o.sections[i]) == [0x2E, 0x74, 0x65, 0x78, 0x74] && p.o.sections[i].flags / 4 % 2 == 1
       <==> i == p.t
    ensures SectionName(p.n, p.n.sections[i]) == [0x2E, 0x74, 0x65, 0x78, 0x74] && p.n.sections[i].flags / 4 % 2 == 1
       <==> i == p.t
  {
    hide Accepted, IsFirst, WellParsed, PlacementOk, PostFile, SectionOk, TextHeaderOk, TailOk;
    hide TablesOk, PostSame, GapsZero, HeadSame, HeaderSame, TableAtEnd, FirstAlloc, PhdrsOk, SectionName;
    SameText(p);
    Checks(p);
  }

  lemma {:induction false} ApartFromText(p: Pair, i: nat)
    requires p.Indexed() && i < |p.o.sections| && SectionOk(p, i) && i != p.t
    ensures var s := p.o.sections[i]; s.kind != 0 && s.kind != 8 ==>
      s.offset + s.size <= p.Ot().offset || p.OldEnd() <= s.offset
    ensures var s := p.o.sections[i]; s.kind != 0 && s.kind != 8 && p.OldEnd() <= s.offset && IsFirst(p.o, p.t, p.f) ==>
      p.Fo().offset <= s.offset
  {
    hide FirstAlloc, SameKind, PostOk;
    if IsFirst(p.o, p.t, p.f) && PostFile(p.o, p.t, i) {
      assert p.Fo().offset <= p.o.sections[i].offset;
    }
  }

  /** No section of OLD straddles .text, and none after it starts before the first later one. */
  lemma {:induction false} AcceptedApart(p: Pair, i: nat)
    requires Accepted(p) && p.Indexed() && i < |p.o.sections| && i != p.t
    requires p.o.sections[i].kind != 0 && p.o.sections[i].kind != 8
    ensures var s := p.o.sections[i];
      s.offset + s.size <= p.Ot().offset || (p.OldEnd() <= s.offset && p.Fo().offset <= s.offset)
  {
    hide *;
    SectionCheck(p, i);
    Checks(p);
    ApartFromText(p, i);
  }

  lemma {:induction false} TailAligned(p: Pair)
    requires p.Indexed()
    requires TailOk(Payload(p.o, p.Ot()), Payload(p.n, p.Nt()), p.Ot().size, p.Nt().size, p.Nt().addr)
    ensures p.Nt().size % 128 == 0 && (p.Nt().addr + p.Nt().size) % 128 == 0 && p.Ot().size % 4 == 0
  {
    hide IsCodeEnd, Word, Payload, AlignBytes;
    Dwords(p.Ot().size);
  }

  lemma Dwords(size: nat)
    requires AlignBytes(size) % 4 == 0
    ensures size % 4 == 0
  {
    var n := AlignBytes(size);
    assert (size + n) % 128 == 0;
    var q := (size + n) / 128;
    assert size + n == 128 * q;
  }

  /** The layout rules re-checked on the files: where the section header table lies, how each LOAD segment is
      placed, which one covers .text, and where .text ends. */
  lemma {:induction false} AcceptedLayout(p: Pair)
    requires Accepted(p)
    ensures p.Indexed() && p.n.shoff % 8 == 0
    ensures |p.o.data| == p.o.shoff + 64 * p.o.shnum && |p.n.data| == p.n.shoff + 64 * p.n.shnum
    ensures forall i :: 0 <= i < |p.o.sections| ==>
      && (p.o.sections[i].kind != 8 ==> p.o.sections[i].offset + p.o.sections[i].size <= p.o.shoff)
      && (p.n.sections[i].kind != 8 ==> p.n.sections[i].offset + p.n.sections[i].size <= p.n.shoff)
    ensures forall i :: 0 <= i < |p.n.phdrs| ==>
      var h := p.n.phdrs[i];
      h.kind == 1 ==> (h.align > 1 ==> h.offset % h.align == h.vaddr % h.align) && h.filesz <= h.memsz
    ensures exists i ::
      && 0 <= i < |p.n.phdrs| && p.n.phdrs[i].kind == 1 && p.n.phdrs[i].flags % 2 == 1
      && p.n.phdrs[i].vaddr <= p.Nt().addr && p.Nt().addr + p.Nt().size <= p.n.phdrs[i].vaddr + p.n.phdrs[i].memsz
    ensures p.Nt().size % 128 == 0 && (p.Nt().addr + p.Nt().size) % 128 == 0 && p.Ot().size % 4 == 0
    ensures p.Fn().offset >= p.NewEnd()
  {
    hide Accepted, OnlyText, IsFirst, WellParsed, PostFile, TextHeaderOk, TailOk, SectionOk, FollowsRule;
    hide TablesOk, PostSame, GapsZero, HeadSame, HeaderSame, FirstAlloc, PhdrOk, Payload, KernelsOk, DynamicOk;
    hide SegmentStart, AlignSkew;
    Checks(p);
    RestChecks(p);
    TailAligned(p);
    forall i | 0 <= i < |p.n.phdrs|
      ensures LoadOk(p.n.phdrs[i])
    {
    }
    var i :| 0 <= i < |p.n.phdrs| && CoversText(p.n.phdrs[i], p.Nt());
  }

  // ---- section and program headers, field by field ----

  /** Section i of OLD comes after .text: in the file, or in memory if it takes no space in the file. */
  ghost predicate After(p: Pair, i: nat)
    requires p.Indexed() && i < |p.o.sections|
  {
    var s, ot := p.o.sections[i], p.o.sections[p.t];
    && i != p.t && s.kind != 0
    && if s.kind == 8 then s.flags / 2 % 2 == 1 && s.addr >= ot.addr + ot.size else s.offset >= ot.offset + ot.size
  }

  lemma {:induction false} AfterIs(p: Pair, i: nat)
    requires p.Indexed() && i < |p.o.sections|
    ensures After(p, i) <==> ClassOf(p.o, p.t, i) == Post
  {
    hide FirstAlloc;
  }

  lemma {:induction false} HeaderKept(p: Pair, i: nat)
    requires p.Indexed() && i < |p.o.sections| && p.t == p.u && SectionOk(p, i) && TextHeaderOk(p)
    requires p.Nt().size == p.Ot().size + TailLength(p.Ot().size)
    ensures var s, n := p.o.sections[i], p.n.sections[i];
      && n.nameIdx == s.nameIdx && n.kind == s.kind && n.flags == s.flags && n.link == s.link
      && n.info == s.info && n.align == s.align && n.entsize == s.entsize
      && (!After(p, i) && i != p.t ==> n == s)
      && (i == p.t ==>
            n.offset == s.offset && n.addr == s.addr && n.size == s.size + (128 - s.size % 128) % 128 + 384)
  {
    AfterIs(p, i);
    hide FirstAlloc, PostOk;
  }

  lemma {:induction false} HeaderMoved(p: Pair, i: nat)
    requires p.Indexed() && i < |p.o.sections| && SectionOk(p, i) && After(p, i)
    ensures var s, n := p.o.sections[i], p.n.sections[i];
      && n.offset - s.offset == p.n.sections[p.f].offset - p.o.sections[p.f].offset
      && (s.flags / 2 % 2 == 0 ==> n.addr == s.addr) && (s.kind != 8 ==> n.size == s.size)
      && (s.flags / 2 % 2 == 1 ==> n.addr - s.addr == p.AddrShift())
      && (s.kind == 8 ==> n.size < 4096 && ((s.addr + s.size) % 4096 == 0 ==> (n.addr + n.size) % 4096 == 0))
  {
    AfterIs(p, i);
    hide FirstAlloc, ClassOf;
  }

  /** Every section header of NEW, on the fields: which stay, how .text grows, and that all later sections move by
      the same file offset and all allocated ones by the same address. */
  lemma {:induction false} AcceptedSection(p: Pair, i: nat, j: nat)
    requires Accepted(p) && p.Indexed() && i < |p.o.sections| && j < |p.o.sections|
    ensures var s, n := p.o.sections[i], p.n.sections[i];
      && n.nameIdx == s.nameIdx && n.kind == s.kind && n.flags == s.flags && n.link == s.link
      && n.info == s.info && n.align == s.align && n.entsize == s.entsize
      && (!After(p, i) && i != p.t ==> n == s)
      && (i == p.t ==>
            n.offset == s.offset && n.addr == s.addr && n.size == s.size + (128 - s.size % 128) % 128 + 384)
      && (After(p, i) ==>
            && n.offset - s.offset == p.n.sections[p.f].offset - p.o.sections[p.f].offset
            && (s.flags / 2 % 2 == 0 ==> n.addr == s.addr) && (s.kind != 8 ==> n.size == s.size)
            && (s.kind == 8 ==>
                  n.size < 4096 && ((s.addr + s.size) % 4096 == 0 ==> (n.addr + n.size) % 4096 == 0)))
    ensures var s, n, s', n' := p.o.sections[i], p.n.sections[i], p.o.sections[j], p.n.sections[j];
      After(p, i) && After(p, j) && s.flags / 2 % 2 == 1 && s'.flags / 2 % 2 == 1 ==>
        n.addr - s.addr == n'.addr - s'.addr
  {
    hide *;
    SectionCheck(p, i);
    SectionCheck(p, j);
    SameText(p);
    TextGrows(p);
    Checks(p);
    HeaderKept(p, i);
    if After(p, i) {
      HeaderMoved(p, i);
    }
    if After(p, j) {
      HeaderMoved(p, j);
    }
  }

  /** d is how far the addresses after .text move: 0 if nothing after it is allocated. */
  ghost predicate Moved(p: Pair, d: int)
    requires p.Indexed()
  {
    if exists i: nat :: i < |p.o.sections| && After(p, i) && p.o.sections[i].flags / 2 % 2 == 1 then
      forall i: nat :: i < |p.o.sections| && After(p, i) && p.o.sections[i].flags / 2 % 2 == 1 ==>
        p.n.sections[i].addr - p.o.sections[i].addr == d
    else d == 0
  }

  lemma {:induction false} ShiftMoves(p: Pair)
    requires Accepted(p) && p.Indexed()
    ensures Moved(p, p.AddrShift())
  {
    hide *;
    AllSections(p);
    ShiftMovesOf(p);
  }

  lemma {:induction false} ShiftMovesOf(p: Pair)
    requires p.Indexed() && forall i :: 0 <= i < |p.o.sections| ==> SectionOk(p, i)
    ensures Moved(p, p.AddrShift())
  {
    forall i: nat | i < |p.o.sections| && After(p, i) && p.o.sections[i].flags / 2 % 2 == 1
      ensures p.n.sections[i].addr - p.o.sections[i].addr == p.AddrShift()
    {
      HeaderMoved(p, i);
    }
    var k := FirstAlloc(p.o, p.t, 0);
    if k < |p.o.sections| {
      AfterIs(p, k);
    }
    hide SectionOk, After, ClassOf;
  }

  /** The header q of NEW for the header h of OLD, on the fields, when addresses move by d and the padding of the
      two files is was and now bytes. */
  ghost predicate Expected(p: Pair, h: Phdr, q: Phdr, d: int, was: nat, now: nat)
    requires p.Indexed()
  {
    var ot, nt, fo, fn := p.o.sections[p.t], p.n.sections[p.t], p.o.sections[p.f], p.n.sections[p.f];
    && q.kind == h.kind && q.flags == h.flags && q.align == h.align
    && if h.offset == ot.offset && h.vaddr == ot.addr && h.filesz == ot.size then
         && q.offset == h.offset && q.vaddr == h.vaddr && q.paddr == h.paddr
         && q.filesz - nt.size == h.memsz - ot.size && q.memsz == q.filesz
       else if h.offset == fo.offset && (fo.flags / 2 % 2 == 0 || h.vaddr == fo.addr) then
         && q.offset == fn.offset && q.vaddr - h.vaddr == d && q.paddr - h.paddr == d && q.filesz == h.filesz
         && q.memsz == if h.memsz - h.filesz == was && (h.kind == 1 || h.kind == 0x6474E552) then h.filesz + now
                       else h.memsz
       else q == h
  }

  /** The sizes of the sections after .text that take no space in the file, added up over e's headers. */
  ghost function Padding(p: Pair, e: Elf, k: nat): (n: nat)
    requires p.Indexed() && |e.sections| == |p.o.sections| && k <= |p.o.sections|
  {
    if k == 0 then 0 else
      Padding(p, e, k - 1)
      + if After(p, k - 1) && p.o.sections[k - 1].kind == 8 then e.sections[k - 1].size else 0
  }

  lemma {:induction false} PaddingIs(p: Pair, e: Elf, k: nat)
    requires p.Indexed() && |e.sections| == |p.o.sections| && k <= |p.o.sections|
    ensures Padding(p, e, k) == Relro(p.o, p.t, e, k)
  {
    if k > 0 {
      PaddingIs(p, e, k - 1);
      AfterIs(p, k - 1);
      hide After, ClassOf;
    }
  }

  lemma {:induction false} ExpectedIs(p: Pair, h: Phdr, q: Phdr)
    requires p.Indexed() && p.t == p.u && PhdrOk(p, h, q)
    ensures Expected(p, h, q, p.AddrShift(), Relro(p.o, p.t, p.o, |p.o.sections|), Relro(p.o, p.t, p.n, |p.o.sections|))
  {
    hide Relro, FirstAlloc;
  }

  /** Every program header of NEW, on the fields: the segment of .text grows with it, the segments that start at
      the first later section move with it and keep their padding, and all others stay. */
  lemma {:induction false} AcceptedPhdr(p: Pair, i: nat) returns (d: int)
    requires Accepted(p) && i < |p.o.phdrs|
    ensures p.Indexed() && |p.n.phdrs| == |p.o.phdrs| && Moved(p, d)
    ensures Expected(p, p.o.phdrs[i], p.n.phdrs[i], d, Padding(p, p.o, |p.o.sections|), Padding(p, p.n, |p.o.sections|))
  {
    hide *;
    SameText(p);
    Checks(p);
    AllSections(p);
    ShiftMoves(p);
    CountsOf(p);
    PaddingIs(p, p.o, |p.o.sections|);
    PaddingIs(p, p.n, |p.o.sections|);
    PhdrCheck(p, i);
    ExpectedIs(p, p.o.phdrs[i], p.n.phdrs[i]);
    d := p.AddrShift();
  }

  lemma CountsOf(p: Pair)
    requires p.Indexed()
    ensures |p.n.sections| == |p.o.sections| && p.t < |p.o.sections| && p.u < |p.o.sections| && p.f < |p.o.sections|
  {
  }

  lemma PhdrCheck(p: Pair, i: nat)
    requires p.Indexed() && PhdrsOk(p) && i < |p.o.phdrs|
    ensures |p.n.phdrs| == |p.o.phdrs| && PhdrOk(p, p.o.phdrs[i], p.n.phdrs[i])
  {
    hide PhdrOk, LoadOk, CoversText;
  }

  // ---- symbols, kernels and descriptors ----

  /** How far the addresses of a symbol's section move. */
  function SectionMove(p: Pair, shndx: nat): (d: int)
    requires p.Indexed()
  {
    if shndx < 0xFF00 && shndx < |p.o.sections| then p.n.sections[shndx].addr - p.o.sections[shndx].addr else 0
  }

  lemma {:induction false} DeltaIsMove(p: Pair, shndx: nat)
    requires p.Indexed() && TextHeaderOk(p) && p.t == p.u && (shndx < |p.o.sections| ==> SectionOk(p, shndx))
    ensures Delta(p, shndx) == SectionMove(p, shndx)
  {
    hide FirstAlloc;
  }

  /** Every symbol of every table keeps its name, binding, section and size, and moves with its section. */
  lemma {:induction false} AcceptedSymbol(p: Pair, i: nat, j: nat)
    requires Accepted(p) && p.Indexed() && i < |p.o.sections|
    requires p.o.sections[i].kind == 2 || p.o.sections[i].kind == 11
    ensures p.o.sections[i].link < |p.o.sections| && p.n.sections[i].link < |p.n.sections|
    ensures SymbolCount(p.o, p.o.sections[i]) == SymbolCount(p.n, p.n.sections[i])
    ensures j < SymbolCount(p.o, p.o.sections[i]) ==>
      var a, b := SymbolAt(p.o, p.o.sections[i], j), SymbolAt(p.n, p.n.sections[i], j);
      && b.name == a.name && b.info == a.info && b.other == a.other && b.shndx == a.shndx && b.size == a.size
      && b.value == a.value + SectionMove(p, a.shndx)
  {
    hide Accepted, SymbolAt, SymbolCount, Delta, SectionMove, SectionOk, TextHeaderOk;
    TableFacts(p, i);
    SameText(p);
    assert TextHeaderOk(p) by {
      hide *;
      Checks(p);
    }
    if j < SymbolCount(p.o, p.o.sections[i]) {
      var a := SymbolAt(p.o, p.o.sections[i], j);
      assert SymbolOk(p, a, SymbolAt(p.n, p.n.sections[i], j));
      if a.shndx < |p.o.sections| {
        SectionCheck(p, a.shndx);
      }
      DeltaIsMove(p, a.shndx);
    }
  }

  /** Section i is the last symbol table of its name: the one the checker keeps. */
  ghost predicate LastOfName(o: Elf, i: nat) {
    && i < |o.sections| && (o.sections[i].kind == 2 || o.sections[i].kind == 11)
    && forall l :: i < l < |o.sections| && (o.sections[l].kind == 2 || o.sections[l].kind == 11) ==>
         SectionName(o, o.sections[l]) != SectionName(o, o.sections[i])
  }

  /** Section d is the first called `.dynamic`. */
  ghost predicate FirstDynamic(o: Elf, d: nat) {
    && d < |o.sections| && SectionName(o, o.sections[d]) == [0x2E, 0x64, 0x79, 0x6E, 0x61, 0x6D, 0x69, 0x63]
    && forall l :: 0 <= l < d ==> SectionName(o, o.sections[l]) != SectionName(o, o.sections[d])
  }

  lemma {:induction false} TableNamedIs(o: Elf, name: Name, k: nat)
    requires k <= |o.sections|
    ensures var r := TableNamed(o, name, k);
      && (r.Some? ==> r.value < k && o.sections[r.value].IsSymbolTable()
                      && SectionName(o, o.sections[r.value]) == name)
      && forall l :: (if r.Some? then r.value + 1 else 0) <= l < k && o.sections[l].IsSymbolTable() ==>
           SectionName(o, o.sections[l]) != name
  {
    hide SectionName;
    if k > 0 {
      TableNamedIs(o, name, k - 1);
    }
  }

  lemma {:induction false} LastIsKept(o: Elf, i: nat)
    requires LastOfName(o, i)
    ensures TableNamed(o, SectionName(o, o.sections[i]), |o.sections|) == Some(i)
  {
    hide SectionName, TableNamed;
    TableNamedIs(o, SectionName(o, o.sections[i]), |o.sections|);
  }

  lemma {:induction false} FirstNamedIs(o: Elf, d: nat, i: nat)
    requires FirstDynamic(o, d) && i <= d
    ensures FirstNamed(o, DYNAMIC_NAME, i) == d
    decreases d - i
  {
    hide SectionName;
    if i < d {
      FirstNamedIs(o, d, i + 1);
    }
  }

  /** `_DYNAMIC` has the new address of `.dynamic`. */
  lemma {:induction false} AcceptedDynamic(p: Pair, i: nat, j: nat, d: nat)
    requires Accepted(p) && p.Indexed() && LastOfName(p.o, i) && FirstDynamic(p.o, d)
    requires p.o.sections[i].link < |p.o.sections| && j < SymbolCount(p.o, p.o.sections[i])
    requires SymbolAt(p.o, p.o.sections[i], j).name == [0x5F, 0x44, 0x59, 0x4E, 0x41, 0x4D, 0x49, 0x43]
    ensures p.n.sections[i].link < |p.n.sections| && j < SymbolCount(p.n, p.n.sections[i])
    ensures SymbolAt(p.n, p.n.sections[i], j).value == p.n.sections[d].addr
  {
    hide Accepted, SymbolAt, SymbolCount, TablesOk, KernelsOk, TableNamed, FirstNamed, SectionName;
    RestChecks(p);
    AcceptedSymbol(p, i, j);
    LastIsKept(p.o, i);
    FirstNamedIs(p.o, d, 0);
    assert DynamicOk(p, i);
  }

  /** Section i is the table of kernels: the last `.symtab`, or the last `.dynsym` if there is no `.symtab`. */
  ghost predicate KernelTableAt(o: Elf, i: nat) {
    && LastOfName(o, i)
    && var name := SectionName(o, o.sections[i]);
       || name == [0x2E, 0x73, 0x79, 0x6D, 0x74, 0x61, 0x62]
       || (name == [0x2E, 0x64, 0x79, 0x6E, 0x73, 0x79, 0x6D]
           && forall l :: 0 <= l < |o.sections| && (o.sections[l].kind == 2 || o.sections[l].kind == 11) ==>
                SectionName(o, o.sections[l]) != [0x2E, 0x73, 0x79, 0x6D, 0x74, 0x61, 0x62])
  }

  lemma {:induction false} KernelTableFound(o: Elf, i: nat)
    ensures KernelTableAt(o, i) <==> KernelTable(o) == Some(i)
  {
    hide SectionName, TableNamed;
    TableNamedIs(o, SYMTAB_NAME, |o.sections|);
    TableNamedIs(o, DYNSYM_NAME, |o.sections|);
    if KernelTableAt(o, i) {
      LastIsKept(o, i);
    }
  }

  /** Some symbol of the table is a function with code in .text. */
  lemma {:induction false} AcceptedHasKernel(p: Pair) returns (i: nat, j: nat)
    requires Accepted(p)
    ensures p.Indexed() && KernelTableAt(p.o, i) && p.o.sections[i].link < |p.o.sections|
    ensures j < SymbolCount(p.o, p.o.sections[i])
    ensures var a := SymbolAt(p.o, p.o.sections[i], j); a.info % 16 == 2 && a.shndx == p.t && a.size != 0
  {
    hide Accepted, SymbolAt, SymbolCount, TablesOk, KernelTable, SectionName, KernelOk, DescriptorOk, IsDescriptor;
    hide DynamicOk;
    RestChecks(p);
    i := KernelTable(p.o).value;
    KernelTableFound(p.o, i);
    AcceptedSymbol(p, i, 0);
    j :| 0 <= j < SymbolCount(p.o, p.o.sections[i]) && IsKernel(p, SymbolAt(p.o, p.o.sections[i], j));
  }

  lemma {:induction false} KernelChecks(p: Pair, i: nat, j: nat)
    requires Accepted(p) && p.Indexed() && KernelTableAt(p.o, i)
    requires p.o.sections[i].link < |p.o.sections| && j < SymbolCount(p.o, p.o.sections[i])
    ensures p.n.sections[i].link < |p.n.sections| && j < SymbolCount(p.n, p.n.sections[i])
    ensures var a, b := SymbolAt(p.o, p.o.sections[i], j), SymbolAt(p.n, p.n.sections[i], j);
      (IsKernel(p, a) ==> KernelOk(p, a, b)) && (IsDescriptor(p, a) ==> DescriptorOk(p, a, b))
  {
    hide Accepted, SymbolAt, SymbolCount, TablesOk, KernelTable, SectionName, KernelOk, DescriptorOk, IsDescriptor;
    hide DynamicOk, IsKernel;
    RestChecks(p);
    KernelTableFound(p.o, i);
    AcceptedSymbol(p, i, j);
  }

  lemma TableIndexed(p: Pair, i: nat)
    requires p.Indexed() && KernelTableAt(p.o, i)
    ensures i < |p.o.sections| && i < |p.n.sections| && (p.o.sections[i].kind == 2 || p.o.sections[i].kind == 11)
  {
    hide SectionName;
  }

  lemma KernelIs(p: Pair, a: Symbol)
    ensures IsKernel(p, a) <==> a.info % 16 == 2 && a.shndx == p.t && a.size != 0
  {
  }

  lemma DescriptorIs(p: Pair, a: Symbol)
    requires p.Indexed() && a.shndx < |p.o.sections| && a.info % 16 == 1
    requires a.size == 64 || (|a.name| >= 3 && a.name[|a.name| - 3..] == [0x2E, 0x6B, 0x64])
    requires var s := p.o.sections[a.shndx]; s.kind != 8 && s.flags / 2 % 2 == 1 && s.flags / 4 % 2 == 0
    ensures IsDescriptor(p, a)
  {
  }

  lemma MoveOf(p: Pair, shndx: nat)
    requires p.Indexed() && shndx < 0xFF00 && shndx < |p.o.sections|
    ensures shndx < |p.n.sections| && SectionMove(p, shndx) == p.n.sections[shndx].addr - p.o.sections[shndx].addr
  {
  }

  lemma KindsOf(p: Pair, i: nat)
    requires i < |p.o.sections| && i < |p.n.sections| && p.n.sections[i].kind == p.o.sections[i].kind != 8
    ensures !p.o.sections[i].Nobits() && !p.n.sections[i].Nobits()
  {
  }

  lemma {:induction false} SlicesAgree(a: Bytes, b: Bytes, lo: nat, n: nat, x: nat)
    requires Slice(a, lo, lo + n) == Slice(b, lo, lo + n) && lo + n <= |a| && x < n
    ensures lo + x < |b| && a[lo + x] == b[lo + x]
  {
    assert Slice(a, lo, lo + n)[x] == a[lo + x];
    assert Slice(b, lo, lo + n)[x] == b[lo + x];
  }

  lemma {:induction false} KernelByte(p: Pair, a: Symbol, b: Symbol, x: nat)
    requires p.Indexed() && KernelOk(p, a, b) && x < a.size && p.Ot().offset == p.Nt().offset
    requires Payload(p.o, p.Ot()) == Slice(p.o.data, p.Ot().offset, p.OldEnd())
    requires Payload(p.n, p.Nt()) == Slice(p.n.data, p.Nt().offset, p.NewEnd())
    requires p.OldEnd() <= |p.o.data| && p.NewEnd() <= |p.n.data|
    ensures p.Ot().addr <= a.value && a.value + a.size <= p.Ot().addr + p.Ot().size
    ensures b.value == a.value && b.size == a.size
    ensures var k := p.Ot().offset + (a.value - p.Ot().addr) + x;
      k < |p.o.data| && k < |p.n.data| && p.n.data[k] == p.o.data[k]
  {
    hide Slice, Payload;
    var was, now := Payload(p.o, p.Ot()), Payload(p.n, p.Nt());
    var lo := a.value - p.Ot().addr;
    SlicesAgree(was, now, lo, a.size, x);
    assert was == p.o.data[p.Ot().offset..p.OldEnd()] && now == p.n.data[p.Nt().offset..p.NewEnd()];
  }

  /** Every kernel lies in .text, stays where it was, and keeps its code byte for byte. */
  lemma {:induction false} AcceptedKernel(p: Pair, i: nat, j: nat, x: nat)
    requires Accepted(p) && p.Indexed() && KernelTableAt(p.o, i)
    requires p.o.sections[i].link < |p.o.sections| && j < SymbolCount(p.o, p.o.sections[i])
    requires var a := SymbolAt(p.o, p.o.sections[i], j); a.info % 16 == 2 && a.shndx == p.t && x < a.size
    ensures p.n.sections[i].link < |p.n.sections| && j < SymbolCount(p.n, p.n.sections[i])
    ensures var a, b := SymbolAt(p.o, p.o.sections[i], j), SymbolAt(p.n, p.n.sections[i], j);
      && p.Ot().addr <= a.value && a.value + a.size <= p.Ot().addr + p.Ot().size
      && b.value == a.value && b.size == a.size
      && var k := p.Ot().offset + (a.value - p.Ot().addr) + x;
         k < |p.o.data| && k < |p.n.data| && p.n.data[k] == p.o.data[k]
  {
    hide *;
    TableIndexed(p, i);
    KernelIs(p, SymbolAt(p.o, p.o.sections[i], j));
    KernelChecks(p, i, j);
    TextGrows(p);
    KernelByte(p, SymbolAt(p.o, p.o.sections[i], j), SymbolAt(p.n, p.n.sections[i], j), x);
  }

  lemma {:induction false} DescriptorByte(p: Pair, a: Symbol, b: Symbol, x: nat)
    requires p.Indexed() && a.shndx < |p.o.sections| && DescriptorOk(p, a, b) && x < a.size
    requires var s, n := p.o.sections[a.shndx], p.n.sections[a.shndx];
      && !s.Nobits() && !n.Nobits() && s.addr <= a.value && n.addr == s.addr
      && s.offset + s.size <= |p.o.data| && n.offset + n.size <= |p.n.data|
    ensures b.value == a.value && b.size == a.size
    ensures var s, n, lo := p.o.sections[a.shndx], p.n.sections[a.shndx], a.value - p.o.sections[a.shndx].addr;
      && lo + a.size <= s.size && lo + x < n.size
      && p.n.data[n.offset + lo + x] == p.o.data[s.offset + lo + x]
  {
    hide Slice;
    var s, n := p.o.sections[a.shndx], p.n.sections[a.shndx];
    var was, now, lo := Payload(p.o, s), Payload(p.n, n), a.value - s.addr;
    assert was == p.o.data[s.offset..s.offset + s.size] && now == p.n.data[n.offset..n.offset + n.size];
    assert Slice(was, lo, lo + a.size) == Slice(now, lo, lo + a.size) && |Slice(was, lo, lo + a.size)| == a.size;
    WholeSlice(was, lo, a.size);
    SlicesAgree(was, now, lo, a.size, x);
  }

  lemma {:induction false} WholeSlice(b: Bytes, lo: nat, n: nat)
    requires |Slice(b, lo, lo + n)| == n && n > 0
    ensures lo + n <= |b|
  {
  }

  lemma {:induction false} DescriptorPlace(p: Pair, i: nat)
    requires Accepted(p) && p.Indexed() && i < |p.o.sections|
    requires p.o.sections[i].kind != 8 && p.o.sections[i].kind != 0
    ensures p.n.sections[i].kind == p.o.sections[i].kind
    ensures p.o.sections[i].offset + p.o.sections[i].size <= |p.o.data|
    ensures p.n.sections[i].offset + p.n.sections[i].size <= |p.n.data|
  {
    SectionCheck(p, i);
    hide Accepted, FirstAlloc, ClassOf, PostOk;
  }

  /** Every descriptor, a data symbol of 64 bytes or called *.kd, stays where it was and keeps its bytes. */
  lemma {:induction false} AcceptedDescriptor(p: Pair, i: nat, j: nat, x: nat)
    requires Accepted(p) && p.Indexed() && KernelTableAt(p.o, i)
    requires p.o.sections[i].link < |p.o.sections| && j < SymbolCount(p.o, p.o.sections[i])
    requires var a := SymbolAt(p.o, p.o.sections[i], j);
      && a.info % 16 == 1 && a.shndx < 0xFF00 && a.shndx < |p.o.sections| && x < a.size
      && (a.size == 64 || (|a.name| >= 3 && a.name[|a.name| - 3..] == [0x2E, 0x6B, 0x64]))
      && var s := p.o.sections[a.shndx];
         s.kind != 0 && s.kind != 8 && s.flags / 2 % 2 == 1 && s.flags / 4 % 2 == 0 && s.addr <= a.value
    ensures p.n.sections[i].link < |p.n.sections| && j < SymbolCount(p.n, p.n.sections[i])
    ensures var a, b := SymbolAt(p.o, p.o.sections[i], j), SymbolAt(p.n, p.n.sections[i], j);
      b.value == a.value && b.size == a.size
    ensures var a := SymbolAt(p.o, p.o.sections[i], j);
      var s, n, lo := p.o.sections[a.shndx], p.n.sections[a.shndx], a.value - p.o.sections[a.shndx].addr;
      && lo + a.size <= s.size && s.offset + s.size <= |p.o.data| && n.offset + lo + x < |p.n.data|
      && n.addr == s.addr && p.n.data[n.offset + lo + x] == p.o.data[s.offset + lo + x]
  {
    hide *;
    TableIndexed(p, i);
    DescriptorIs(p, SymbolAt(p.o, p.o.sections[i], j));
    KernelChecks(p, i, j);
    AcceptedSymbol(p, i, j);
    var a, b := SymbolAt(p.o, p.o.sections[i], j), SymbolAt(p.n, p.n.sections[i], j);
    DescriptorPlace(p, a.shndx);
    DescriptorKept(p, a, b);
    MoveOf(p, a.shndx);
    KindsOf(p, a.shndx);
    DescriptorByte(p, a, b, x);
  }

  lemma DescriptorKept(p: Pair, a: Symbol, b: Symbol)
    requires p.Indexed() && a.shndx < |p.o.sections| && DescriptorOk(p, a, b)
    ensures b.value == a.value && b.size == a.size
  {
    hide PySlice, Payload;
  }
}
