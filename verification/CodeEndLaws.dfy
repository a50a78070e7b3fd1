/** What acceptance by the code-end checker means for the bytes of NEW. */
module CodeEndLaws {
  import opened Wrappers
  import opened Bytes
  import opened ElfFormat
  import opened CodeEnd

  /** Every NOBITS section after .text ends on a page in OLD. */
  ghost predicate PaddingEndsOnPage(o: Elf, t: nat)
    requires t < |o.sections|
  {
    forall i :: 0 <= i < |o.sections| && ClassOf(o, t, i) == Post && o.sections[i].Nobits() ==>
      (o.sections[i].addr + o.sections[i].size) % PAGE == 0
  }

  /** Both files parse and pass every check. */
  ghost predicate Accepted(p: Pair) {
    WellParsed(p.o) && WellParsed(p.n) && Passes(p)
  }

  // ---- reading single checks off an acceptance ----

  lemma {:induction false} Checks(p: Pair)
    requires Accepted(p)
    ensures WellParsed(p.o) && WellParsed(p.n) && p.Indexed()
    ensures OnlyText(p.o, p.t) && OnlyText(p.n, p.u) && IsFirst(p.o, p.t, p.f) && PostFile(p.o, p.t, p.f)
    ensures HeaderSame(p.o.data, p.n.data) && TextHeaderOk(p) && PlacementOk(p) && PhdrsOk(p)
    ensures TableAtEnd(p.o) && TableAtEnd(p.n) && HeadSame(p.o, p.n, p.OldEnd())
    ensures TailOk(Payload(p.o, p.Ot()), Payload(p.n, p.Nt()), p.Ot().size, p.Nt().size, p.Nt().addr)
    ensures GapsZero(p) && TablesOk(p) && PostSame(p) && p.n.shoff - p.o.shoff == p.FileShift()
  {
    hide WellParsed, OnlyText, HeaderSame, TextHeaderOk, PlacementOk, PhdrsOk, TableAtEnd, HeadSame, TailOk;
    hide GapsZero, TablesOk, PostSame;
    hide SectionsOk, KernelsOk, DynamicOk, PostFile;
  }

  lemma {:induction false} SectionCheck(p: Pair, i: nat)
    requires Accepted(p) && p.Indexed() && i < |p.o.sections|
    ensures SectionOk(p, i) && SectionInFile(p.o.sections[i], |p.o.data|) && SectionInFile(p.n.sections[i], |p.n.data|)
  {
    assert SectionsOk(p) by {
      hide WellParsed, OnlyText, HeaderSame, TextHeaderOk, PlacementOk, PhdrsOk, TableAtEnd, HeadSame, TailOk;
      hide GapsZero, TablesOk, PostSame;
      hide SectionsOk, KernelsOk, DynamicOk, PostFile;
    }
    hide Passes, SectionOk, SectionInFile, U, ParseSections, ParsePhdrs;
  }

  // ---- indices ----

  lemma {:induction false} NamesakeIsText(p: Pair)
    requires p.Indexed() && OnlyText(p.n, p.u) && SameKind(p.Ot(), p.n.sections[p.t]) && SameKind(p.Ot(), p.Nt())
    ensures p.t == p.u
  {
    hide CStr, Payload;
    assert IsText(p.n, p.n.sections[p.t]) by { assert SectionName(p.n, p.n.sections[p.t]) == SectionName(p.n, p.Nt()); }
  }

  lemma {:induction false} SameText(p: Pair)
    requires Accepted(p)
    ensures p.t == p.u
  {
    Checks(p);
    SectionCheck(p, p.t);
    assert SameKind(p.Ot(), p.n.sections[p.t]) && SameKind(p.Ot(), p.Nt()) by { hide Accepted, OnlyText, ClassOf; }
    hide *;
    NamesakeIsText(p);
  }

  lemma {:induction false} SameIndices(p: Pair, q: Pair)
    requires Accepted(p) && Accepted(q) && p.o == q.o
    ensures p.t == q.t == p.u == q.u && p.f == q.f
  {
    SameText(p);
    SameText(q);
    Checks(p);
    Checks(q);
    assert p.t < |p.o.sections| by { hide Accepted, OnlyText; }
    hide *;
    OneText(p.o, p.t, q.t);
    OneFirst(p.o, p.t, p.f, q.f);
  }

  // ---- sizes ----

  lemma {:induction false} FirstInFile(p: Pair)
    requires p.Indexed() && PostFile(p.o, p.t, p.f) && SectionOk(p, p.f) && PlacementOk(p)
    requires SectionInFile(p.Fo(), |p.o.data|) && SectionInFile(p.Fn(), |p.n.data|)
    ensures p.OldEnd() <= p.Fo().offset && p.Fo().offset + p.Fo().size <= |p.o.data|
    ensures p.NewEnd() <= p.Fn().offset && p.Fn().offset + p.Fn().size <= |p.n.data|
  {
    hide FollowsRule, AlignSkew, SegmentStart, FirstAlloc;
  }

  lemma {:induction false} GrowthOf(p: Pair)
    requires p.Indexed() && TextHeaderOk(p) && p.OldEnd() <= |p.o.data| && p.NewEnd() <= |p.n.data|
    requires TailOk(Payload(p.o, p.Ot()), Payload(p.n, p.Nt()), p.Ot().size, p.Nt().size, p.Nt().addr)
    ensures p.Nt().size == p.Ot().size + TailLength(p.Ot().size)
    ensures p.Ot().offset == p.Nt().offset && p.Ot().addr == p.Nt().addr
    ensures Payload(p.o, p.Ot()) == p.o.data[p.Ot().offset..p.OldEnd()]
    ensures Payload(p.n, p.Nt()) == p.n.data[p.Nt().offset..p.NewEnd()]
  {
    hide AlignBytes, IsCodeEnd, Word;
    assert !p.Nt().Nobits() && !p.Ot().Nobits();
  }

  /** .text grows by the alignment up to a cache line and 96 words, stays where it was, and
      everything after it in either file comes after its end. */
  lemma {:induction false} TextGrows(p: Pair)
    requires Accepted(p)
    ensures p.Indexed() && p.Nt().size == p.Ot().size + TailLength(p.Ot().size)
    ensures p.Ot().offset == p.Nt().offset && p.Ot().addr == p.Nt().addr
    ensures Payload(p.o, p.Ot()) == Slice(p.o.data, p.Ot().offset, p.OldEnd())
    ensures Payload(p.n, p.Nt()) == Slice(p.n.data, p.Nt().offset, p.NewEnd())
    ensures p.OldEnd() <= p.Fo().offset && p.Fo().offset + p.Fo().size <= |p.o.data|
    ensures p.NewEnd() <= p.Fn().offset && p.Fn().offset + p.Fn().size <= |p.n.data|
  {
    hide Accepted, OnlyText, IsFirst, WellParsed, PlacementOk, PostFile, SectionOk, SectionInFile, TextHeaderOk;
    hide TailOk, TailLength;
    hide PhdrsOk, TablesOk, PostSame, GapsZero, HeadSame, HeaderSame, TableAtEnd, FirstAlloc, Payload;
    Checks(p);
    SectionCheck(p, p.f);
    FirstInFile(p);
    GrowthOf(p);
  }

  // ---- shifts ----

  lemma {:induction false} ShiftsOf(p: Pair)
    requires p.Indexed() && PostFile(p.o, p.t, p.f) && SectionOk(p, p.f) && PlacementOk(p) && FollowsRule(p)
    ensures p.Fn().addr == SegmentStart(p.Ot().addr + p.Nt().size, p.Fo().align)
    ensures p.Fn().offset == AlignSkew(p.NewEnd(), p.Fn().addr)
    ensures p.AddrShift() == p.Fn().addr - p.Fo().addr
  {
    hide SegmentStart, AlignSkew, FirstAlloc;
  }

  /** Both placements and both shifts of an accepted NEW are functions of OLD. */
  lemma {:induction false} SameShifts(p: Pair, q: Pair)
    requires Accepted(p) && Accepted(q) && p.o == q.o && p.Indexed() && FollowsRule(p)
    ensures p.t == q.t == p.u == q.u && p.f == q.f
    ensures p.Indexed() && q.Indexed() && p.Nt().size == q.Nt().size && p.NewEnd() == q.NewEnd()
    ensures p.Fn().addr == q.Fn().addr && p.Fn().offset == q.Fn().offset
    ensures p.AddrShift() == q.AddrShift() && p.FileShift() == q.FileShift()
  {
    hide Accepted, OnlyText, IsFirst, WellParsed, PlacementOk, PostFile, SectionOk, SectionInFile, TextHeaderOk;
    hide TailOk, TailLength;
    hide AlignSkew, SegmentStart, PhdrsOk, TablesOk, PostSame, GapsZero, HeadSame, HeaderSame, TableAtEnd;
    hide FirstAlloc, Slice, Payload;
    SameIndices(p, q);
    TextGrows(p);
    TextGrows(q);
    Checks(p);
    Checks(q);
    SectionCheck(p, p.f);
    SectionCheck(q, p.f);
    ShiftsOf(p);
    ShiftsOf(q);
  }

  // ---- section and program headers ----

  lemma PaddingSize(addr: nat, a: nat, b: nat)
    requires a < PAGE && b < PAGE && (addr + a) % PAGE == 0 && (addr + b) % PAGE == 0
    ensures a == b
  {
  }

  lemma {:induction false} SameHeader(p: Pair, q: Pair, i: nat)
    requires p.o == q.o && p.t == q.t == p.u == q.u && p.Indexed() && q.Indexed() && i < |p.o.sections|
    requires SectionOk(p, i) && SectionOk(q, i) && TextHeaderOk(p) && TextHeaderOk(q) && p.Nt().size == q.Nt().size
    requires p.f == q.f && p.AddrShift() == q.AddrShift() && p.FileShift() == q.FileShift()
    requires PaddingEndsOnPage(p.o, p.t)
    ensures p.n.sections[i] == q.n.sections[i]
  {
    hide FirstAlloc;
    var s, a, b := p.o.sections[i], p.n.sections[i], q.n.sections[i];
    if ClassOf(p.o, p.t, i) == Post && s.Nobits() {
      PaddingSize(a.addr, a.size, b.size);
    }
  }

  lemma {:induction false} SameSections(p: Pair, q: Pair)
    requires Accepted(p) && Accepted(q) && p.o == q.o && p.Indexed() && FollowsRule(p) && PaddingEndsOnPage(p.o, p.t)
    ensures p.n.sections == q.n.sections
  {
    hide Accepted, OnlyText, IsFirst, WellParsed, PlacementOk, PostFile, SectionOk, SectionInFile, TextHeaderOk;
    hide TailOk, FollowsRule, PaddingEndsOnPage;
    hide PhdrsOk, TablesOk, PostSame, GapsZero, HeadSame, HeaderSame, TableAtEnd, FirstAlloc;
    SameShifts(p, q);
    Checks(p);
    Checks(q);
    forall i | 0 <= i < |p.o.sections|
      ensures p.n.sections[i] == q.n.sections[i]
    {
      SectionCheck(p, i);
      SectionCheck(q, i);
      SameHeader(p, q, i);
    }
  }

  lemma {:induction false} SameRelro(o: Elf, t: nat, a: Elf, b: Elf, k: nat)
    requires t < |o.sections| && |a.sections| == |o.sections| && a.sections == b.sections && k <= |o.sections|
    ensures Relro(o, t, a, k) == Relro(o, t, b, k)
  {
    if k > 0 {
      SameRelro(o, t, a, b, k - 1);
    }
  }

  lemma {:induction false} SamePhdr(p: Pair, q: Pair, h: Phdr, a: Phdr, b: Phdr)
    requires p.o == q.o && p.t == q.t == p.u == q.u && p.f == q.f && p.Indexed() && q.Indexed()
    requires p.n.sections == q.n.sections && p.AddrShift() == q.AddrShift()
    requires PhdrOk(p, h, a) && PhdrOk(q, h, b)
    ensures a == b
  {
    hide Relro, FirstAlloc;
    SameRelro(p.o, p.t, p.n, q.n, |p.o.sections|);
  }

  lemma {:induction false} SamePhdrs(p: Pair, q: Pair)
    requires Accepted(p) && Accepted(q) && p.o == q.o && p.Indexed() && FollowsRule(p) && PaddingEndsOnPage(p.o, p.t)
    ensures p.n.phdrs == q.n.phdrs
  {
    hide Accepted, OnlyText, IsFirst, WellParsed, PlacementOk, PostFile, SectionOk, SectionInFile, TextHeaderOk;
    hide TailOk, FollowsRule, PaddingEndsOnPage;
    hide TablesOk, PostSame, GapsZero, HeadSame, HeaderSame, TableAtEnd, FirstAlloc, PhdrOk, LoadOk, CoversText;
    SameShifts(p, q);
    SameSections(p, q);
    Checks(p);
    Checks(q);
    forall i | 0 <= i < |p.o.phdrs|
      ensures p.n.phdrs[i] == q.n.phdrs[i]
    {
      SamePhdr(p, q, p.o.phdrs[i], p.n.phdrs[i], q.n.phdrs[i]);
    }
  }

  // ---- the same bytes ----

  lemma {:induction false} HeaderFieldSame(a: Bytes, b: Bytes, off: nat, n: nat)
    requires HeaderSame(a, b) && off + n <= 64 && (off + n <= 0x28 || off >= 0x30)
    ensures U(a, off, n) == U(b, off, n)
  {
    assert a[off..off + n] == b[off..off + n];
  }

  /** The header fields of NEW that are not its section header offset are OLD's. */
  lemma {:induction false} SameLayout(p: Pair)
    requires WellParsed(p.o) && WellParsed(p.n) && HeaderSame(p.o.data, p.n.data) && TableAtEnd(p.n)
    ensures p.n.phoff == p.o.phoff && p.n.phnum == p.o.phnum && p.n.shnum == p.o.shnum == |p.n.sections|
    ensures |p.n.data| == p.n.shoff + 64 * p.o.shnum && p.n.shoff == U(p.n.data, 40, 8) && |p.n.data| >= 64
    ensures p.n.phdrs == ParsePhdrs(p.n.data, p.n.phoff, p.n.phnum)
    ensures p.n.sections == ParseSections(p.n.data, p.n.shoff, p.n.shnum)
    ensures p.n.phoff + 56 * p.n.phnum <= |p.n.data|
  {
    hide HeaderSame, U, SectionInFile;
    HeaderFieldSame(p.o.data, p.n.data, 32, 8);
    HeaderFieldSame(p.o.data, p.n.data, 56, 2);
    HeaderFieldSame(p.o.data, p.n.data, 60, 2);
  }

  lemma {:induction false} SliceByte(a: Bytes, b: Bytes, i: nat, j: nat, k: nat)
    requires i <= k < j <= |a| && j <= |b| && a[i..j] == b[i..j]
    ensures a[k] == b[k]
  {
    assert a[i..j][k - i] == b[i..j][k - i];
  }

  lemma {:induction false} SectionTableBytes(a: Bytes, b: Bytes, off: nat, n: nat, k: nat)
    requires off + 64 * n <= |a| && |a| == |b| && ParseSections(a, off, n) == ParseSections(b, off, n)
    requires off <= k < off + 64 * n
    ensures a[k] == b[k]
  {
    hide *;
    var i := (k - off) / 64;
    var base := off + 64 * i;
    assert base <= k < base + 64 && i < n;
    assert ParseSections(a, off, n)[i] == ParseSection(a, base) && ParseSections(b, off, n)[i] == ParseSection(b, base);
    SectionBytesEqual(a, b, base);
    SliceByte(a, b, base, base + 64, k);
  }

  lemma {:induction false} PhdrTableBytes(a: Bytes, b: Bytes, off: nat, n: nat, k: nat)
    requires off + 56 * n <= |a| && |a| == |b| && ParsePhdrs(a, off, n) == ParsePhdrs(b, off, n)
    requires off <= k < off + 56 * n
    ensures a[k] == b[k]
  {
    hide *;
    var i := (k - off) / 56;
    var base := off + 56 * i;
    assert base <= k < base + 56 && i < n;
    assert ParsePhdrs(a, off, n)[i] == ParsePhdr(a, base) && ParsePhdrs(b, off, n)[i] == ParsePhdr(b, base);
    PhdrBytesEqual(a, b, base);
    SliceByte(a, b, base, base + 56, k);
  }

  /** Head: a byte is OLD's, or in e_shoff, or in the program headers. */
  lemma {:induction false} HeadBytes(p: Pair, q: Pair, end: nat, k: nat)
    requires p.o == q.o && HeadSame(p.o, p.n, end) && HeadSame(q.o, q.n, end)
    requires k < end <= |p.o.data| && |p.n.data| == |q.n.data| && k < |p.n.data|
    requires p.n.phoff == q.n.phoff && p.n.phnum == q.n.phnum && p.n.phoff + 56 * p.n.phnum <= |p.n.data|
    requires ParsePhdrs(p.n.data, p.n.phoff, p.n.phnum) == ParsePhdrs(q.n.data, p.n.phoff, p.n.phnum)
    requires |p.n.data| >= 64 && U(p.n.data, 40, 8) == U(q.n.data, 40, 8)
    ensures p.n.data[k] == q.n.data[k]
  {
    hide U, ParsePhdrs;
    if p.n.phoff <= k < p.n.phoff + 56 * p.n.phnum {
      PhdrTableBytes(p.n.data, q.n.data, p.n.phoff, p.n.phnum, k);
    } else if 0x28 <= k < 0x30 {
      FieldBytesEqual(p.n.data, q.n.data, 40, 8);
      assert p.n.data[40..48][k - 40] == q.n.data[40..48][k - 40];
    } else {
      assert HeadByte(p.o, k) == HeadByte(p.n, k) && HeadByte(q.o, k) == HeadByte(q.n, k);
    }
  }

  /** Tail byte i is in code-end word i / 4. */
  lemma {:induction false} TailWordAt(was: Bytes, now: Bytes, size: nat, newSize: nat, addr: nat, i: nat)
    requires TailOk(was, now, size, newSize, addr) && |was| + i < |now|
    ensures |was| + 4 * (i / 4) + 4 <= |now| && IsCodeEnd(Word(now, |was|, i / 4))
  {
    hide IsCodeEnd, Word, AlignBytes;
    Quarter(|now| - |was|, i);
  }

  lemma Quarter(n: nat, i: nat)
    requires n % 4 == 0 && i < n
    ensures i / 4 < n / 4 && 4 * (i / 4) + 4 <= n
  {
  }

  /** Tail: every word is the code-end word. */
  lemma {:induction false} TailBytes(was: Bytes, a: Bytes, b: Bytes, size: nat, newSize: nat, addr: nat, k: nat)
    requires TailOk(was, a, size, newSize, addr) && TailOk(was, b, size, newSize, addr)
    requires |a| == |b| && |was| <= k < |a|
    ensures a[k] == b[k]
  {
    var w := (k - |was|) / 4;
    TailWordAt(was, a, size, newSize, addr, k - |was|);
    TailWordAt(was, b, size, newSize, addr, k - |was|);
    hide TailOk;
    UnpackInjective(Word(a, |was|, w), Word(b, |was|, w));
    assert Word(a, |was|, w)[k - |was| - 4 * w] == Word(b, |was|, w)[k - |was| - 4 * w];
  }

  lemma {:induction false} SameMoves(p: Pair, q: Pair, i: nat, j: nat)
    requires p.o == q.o && p.t == q.t && p.Indexed() && q.Indexed() && p.n.sections == q.n.sections
    ensures Moves(p, i, j) == Moves(q, i, j)
  {
    hide ClassOf, U;
  }

  lemma {:induction false} SameMask(p: Pair, q: Pair, e: Elf, g: Elf, pos: int)
    requires p.o == q.o && p.t == q.t && p.Indexed() && q.Indexed() && p.n.sections == q.n.sections
    requires |e.sections| == |p.o.sections| && e.sections == g.sections
    ensures SymbolMask(p, e, pos) == SymbolMask(q, g, pos)
  {
    hide Moves;
    if SymbolMask(p, e, pos) {
      var i: nat, j: nat :| Moves(p, i, j) && ValueField(e, i, j) <= pos < ValueField(e, i, j) + 8;
      SameMoves(p, q, i, j);
      assert Moves(q, i, j) && ValueField(g, i, j) <= pos < ValueField(g, i, j) + 8;
    }
    if SymbolMask(q, g, pos) {
      var i: nat, j: nat :| Moves(q, i, j) && ValueField(g, i, j) <= pos < ValueField(g, i, j) + 8;
      SameMoves(p, q, i, j);
      assert Moves(p, i, j) && ValueField(e, i, j) <= pos < ValueField(e, i, j) + 8;
    }
  }

  lemma {:induction false} ValueOf(e: Elf, s: Section, j: nat)
    requires !s.Nobits() && s.offset + s.size <= |e.data| && j < SymbolCount(e, s) && s.link < |e.sections|
    ensures s.offset + 24 * j + 24 <= |e.data| && SymbolAt(e, s, j).value == U(e.data, s.offset + 24 * j + 8, 8)
  {
    hide CStr;
    var o := s.offset + 24 * j + 8;
    assert Payload(e, s)[24 * j + 8..24 * j + 16] == e.data[o..o + 8];
  }

  /** A moving symbol has the same value field in both files. */
  lemma {:induction false} MovedBytes(p: Pair, q: Pair, i: nat, j: nat, k: nat)
    requires p.o == q.o && p.t == q.t && p.Indexed() && q.Indexed() && p.n.sections == q.n.sections
    requires Moves(p, i, j) && TablesOk(p) && TablesOk(q) && k < |p.n.data| && k < |q.n.data|
    requires SectionInFile(p.n.sections[i], |p.n.data|) && SectionInFile(q.n.sections[i], |q.n.data|)
    requires SameKind(p.o.sections[i], p.n.sections[i])
    requires ValueField(p.n, i, j) <= k < ValueField(p.n, i, j) + 8
    ensures p.n.data[k] == q.n.data[k]
  {
    assert TableOk(p, i) && TableOk(q, i) && !p.n.sections[i].Nobits() && !p.n.sections[i].IsNull();
    assert p.n.sections[i].offset + p.n.sections[i].size <= |p.n.data|
      && q.n.sections[i].offset + q.n.sections[i].size <= |q.n.data|;
    MovedBytesOf(p, q, i, j, k);
  }

  lemma {:induction false} MovedBytesOf(p: Pair, q: Pair, i: nat, j: nat, k: nat)
    requires p.o == q.o && p.t == q.t && p.Indexed() && q.Indexed() && p.n.sections == q.n.sections
      && i < |p.o.sections|
    requires Moves(p, i, j) && TableOk(p, i) && TableOk(q, i)
    requires var s := p.n.sections[i]; !s.Nobits() && s.offset + s.size <= |p.n.data| && s.offset + s.size <= |q.n.data|
    requires ValueField(p.n, i, j) <= k < ValueField(p.n, i, j) + 8 && k < |p.n.data| && k < |q.n.data|
    ensures p.n.data[k] == q.n.data[k]
  {
    hide TableOk, U, SymbolAt, ClassOf, Moves, SymbolCount;
    var o := ValueField(p.n, i, j);
    SameMoves(p, q, i, j);
    MovedValue(p, i, j);
    MovedValue(q, i, j);
    FieldBytesEqual(p.n.data, q.n.data, o, 8);
    SliceByte(p.n.data, q.n.data, o, o + 8, k);
  }

  lemma {:induction false} MovedValue(p: Pair, i: nat, j: nat)
    requires p.Indexed() && i < |p.o.sections| && TableOk(p, i) && Moves(p, i, j)
    requires var s := p.n.sections[i]; !s.Nobits() && s.offset + s.size <= |p.n.data|
    ensures p.o.sections[i].link < |p.o.sections| && j < SymbolCount(p.o, p.o.sections[i])
    ensures ValueField(p.n, i, j) + 8 <= |p.n.data|
    ensures var a := SymbolAt(p.o, p.o.sections[i], j);
      U(p.n.data, ValueField(p.n, i, j), 8) == a.value + Delta(p, a.shndx)
  {
    hide U, SymbolAt, ClassOf, SymbolSection, Delta, SymbolCount;
    var a, b := SymbolAt(p.o, p.o.sections[i], j), SymbolAt(p.n, p.n.sections[i], j);
    assert SymbolOk(p, a, b);
    ValueOf(p.n, p.n.sections[i], j);
  }

  /** After the first later section: a byte is OLD's shifted byte or part of a moved symbol value. */
  lemma {:induction false} PostBytes(p: Pair, q: Pair, k: nat)
    requires p.o == q.o && p.t == q.t && p.f == q.f && p.Indexed() && q.Indexed() && p.n.sections == q.n.sections
    requires PostSame(p) && PostSame(q) && TablesOk(p) && TablesOk(q)
    requires p.n.shoff == q.n.shoff <= |p.n.data| && |p.n.data| == |q.n.data| && p.Fn().offset <= k < p.n.shoff
    requires forall i :: 0 <= i < |p.n.sections| ==>
      SectionInFile(p.n.sections[i], |p.n.data|) && SameKind(p.o.sections[i], p.n.sections[i])
    ensures p.n.data[k] == q.n.data[k]
  {
    hide TablesOk, SymbolMask, SectionInFile, SameKind;
    var j, b := k - p.Fn().offset, p.Fn().offset;
    SameMask(p, q, p.n, q.n, k);
    SameMask(p, q, p.o, q.o, p.Fo().offset + j);
    if SymbolMask(p, p.n, k) {
      MaskedBytes(p, q, k);
    } else {
      assert PostByte(p, p.o, p.Fo().offset, j) == PostByte(p, p.n, b, j);
      assert PostByte(q, q.o, p.Fo().offset, j) == PostByte(q, q.n, b, j);
    }
  }

  lemma {:induction false} MaskedBytes(p: Pair, q: Pair, k: nat)
    requires p.o == q.o && p.t == q.t && p.Indexed() && q.Indexed() && p.n.sections == q.n.sections
    requires TablesOk(p) && TablesOk(q) && SymbolMask(p, p.n, k) && k < |p.n.data| && |p.n.data| == |q.n.data|
    requires forall i :: 0 <= i < |p.n.sections| ==>
      SectionInFile(p.n.sections[i], |p.n.data|) && SameKind(p.o.sections[i], p.n.sections[i])
    ensures p.n.data[k] == q.n.data[k]
  {
    hide TablesOk, Moves, SectionInFile, SameKind;
    var i: nat, j: nat :| Moves(p, i, j) && ValueField(p.n, i, j) <= k < ValueField(p.n, i, j) + 8;
    MovedBytes(p, q, i, j, k);
  }

  /** Everything about two accepted files that their bytes are rebuilt from. */
  ghost predicate Agree(p: Pair, q: Pair) {
    && p.o == q.o && p.t == q.t == p.u == q.u && p.f == q.f && p.Indexed() && q.Indexed()
    && p.n.sections == q.n.sections && p.n.shoff == q.n.shoff && |p.n.data| == |q.n.data| >= 64
    && p.n.phoff == q.n.phoff && p.n.phnum == q.n.phnum && p.n.phoff + 56 * p.n.phnum <= |p.n.data|
    && ParsePhdrs(p.n.data, p.n.phoff, p.n.phnum) == ParsePhdrs(q.n.data, p.n.phoff, p.n.phnum)
    && p.n.shoff + 64 * p.n.shnum == |p.n.data| && p.n.shnum == q.n.shnum
    && ParseSections(p.n.data, p.n.shoff, p.n.shnum) == ParseSections(q.n.data, p.n.shoff, p.n.shnum)
    && U(p.n.data, 40, 8) == U(q.n.data, 40, 8)
  }

  lemma {:induction false} Agreement(p: Pair, q: Pair)
    requires Accepted(p) && Accepted(q) && p.o == q.o && p.Indexed() && FollowsRule(p) && PaddingEndsOnPage(p.o, p.t)
    ensures Agree(p, q)
  {
    hide Accepted, OnlyText, IsFirst, WellParsed, PlacementOk, PostFile, TextHeaderOk, TailOk, FollowsRule;
    hide PaddingEndsOnPage;
    hide TablesOk, PostSame, GapsZero, HeadSame, HeaderSame, TableAtEnd, FirstAlloc, PhdrsOk, U, ParsePhdrs;
    hide ParseSections;
    SameShifts(p, q);
    SameSections(p, q);
    SamePhdrs(p, q);
    Checks(p);
    Checks(q);
    SameLayout(p);
    SameLayout(q);
  }

  lemma {:induction false} FirstBeforeTable(p: Pair)
    requires p.Indexed() && TableAtEnd(p.n) && PostFile(p.o, p.t, p.f) && SectionOk(p, p.f)
    ensures p.Fn().offset <= p.n.shoff
  {
    hide FirstAlloc, PostOk;
    assert !p.Fn().Nobits();
  }

  lemma {:induction false} GapByte(p: Pair, k: nat)
    requires p.Indexed() && GapsZero(p) && p.NewEnd() <= k < p.Fn().offset <= |p.n.data|
    ensures p.n.data[k] == 0
  {
    assert Slice(p.n.data, p.NewEnd(), p.Fn().offset)[k - p.NewEnd()] == p.n.data[k];
  }

  lemma {:induction false} KindsAndBounds(p: Pair)
    requires Accepted(p) && p.Indexed()
    ensures forall i :: 0 <= i < |p.n.sections| ==>
      SectionInFile(p.n.sections[i], |p.n.data|) && SameKind(p.o.sections[i], p.n.sections[i])
  {
    hide Accepted, SectionInFile, SameKind, FirstAlloc, ClassOf, PostOk;
    forall i | 0 <= i < |p.n.sections|
      ensures SectionInFile(p.n.sections[i], |p.n.data|) && SameKind(p.o.sections[i], p.n.sections[i])
    {
      SectionCheck(p, i);
    }
  }

  /** The tail region byte for byte: both files hold the same payload after the old .text. */
  lemma {:induction false} TailRegion(p: Pair, q: Pair, k: nat)
    requires Accepted(p) && Accepted(q) && Agree(p, q) && p.OldEnd() <= k < p.NewEnd() && k < |p.n.data|
    ensures p.n.data[k] == q.n.data[k]
  {
    hide Accepted, OnlyText, IsFirst, WellParsed, PlacementOk, PostFile, TextHeaderOk, TailOk, TailLength, PhdrsOk;
    hide TablesOk, PostSame, GapsZero, HeadSame;
    hide HeaderSame, TableAtEnd, U, ParsePhdrs, ParseSections, Payload, Slice;
    TextGrows(p);
    TextGrows(q);
    Checks(p);
    Checks(q);
    TailRegionOf(p.o.data, p.n.data, q.n.data, p.Ot().offset, p.Ot().size, p.Nt().size, p.Nt().addr, k);
  }

  lemma {:induction false} TailRegionOf(o: Bytes, a: Bytes, b: Bytes, off: nat, size: nat, newSize: nat, addr: nat,
                                        k: nat)
    requires off + size <= |o| && off + newSize <= |a| && |a| == |b| && off + size <= k < off + newSize
    requires TailOk(Slice(o, off, off + size), Slice(a, off, off + newSize), size, newSize, addr)
    requires TailOk(Slice(o, off, off + size), Slice(b, off, off + newSize), size, newSize, addr)
    ensures a[k] == b[k]
  {
    hide TailOk, Slice;
    var x, y := Slice(a, off, off + newSize), Slice(b, off, off + newSize);
    assert x == a[off..off + newSize] && y == b[off..off + newSize];
    TailBytes(Slice(o, off, off + size), x, y, size, newSize, addr, k - off);
    assert x[k - off] == a[k] && y[k - off] == b[k];
  }

  lemma {:induction false} SameByte(p: Pair, q: Pair, k: nat)
    requires Accepted(p) && Accepted(q) && Agree(p, q) && k < |p.n.data|
    ensures p.n.data[k] == q.n.data[k]
  {
    hide Accepted, OnlyText, IsFirst, WellParsed, PlacementOk, PostFile, TextHeaderOk, TailOk, TailLength, PhdrsOk;
    hide TablesOk, PostSame, GapsZero, HeadSame;
    hide HeaderSame, TableAtEnd, U, ParsePhdrs, ParseSections, Payload, SectionOk, SectionInFile, SameKind, Slice;
    Checks(p);
    Checks(q);
    TextGrows(p);
    TextGrows(q);
    SectionCheck(p, p.f);
    FirstBeforeTable(p);
    if k >= p.n.shoff {
      SectionTableBytes(p.n.data, q.n.data, p.n.shoff, p.n.shnum, k);
    } else if k >= p.Fn().offset {
      KindsAndBounds(p);
      PostBytes(p, q, k);
    } else if k >= p.NewEnd() {
      GapByte(p, k);
      GapByte(q, k);
    } else if k >= p.OldEnd() {
      TailRegion(p, q, k);
    } else {
      HeadBytes(p, q, p.OldEnd(), k);
    }
  }

  /** OLD follows the segment-start rule after .text and its padding ends on pages. */
  ghost predicate Regular(o: Elf) {
    exists t: nat, f: nat :: RegularAt(o, t, f)
  }

  ghost predicate RegularAt(o: Elf, t: nat, f: nat) {
    && OnlyText(o, t) && IsFirst(o, t, f) && PaddingEndsOnPage(o, t)
    && o.sections[f].Alloc()
    && o.sections[f].addr == SegmentStart(o.sections[t].addr + o.sections[t].size, o.sections[f].align)
  }

  lemma {:induction false} RuleFollowed(p: Pair, t: nat, f: nat)
    requires Accepted(p) && RegularAt(p.o, t, f)
    ensures p.Indexed() && FollowsRule(p) && PaddingEndsOnPage(p.o, p.t)
  {
    hide Accepted, OnlyText, IsFirst, WellParsed, PlacementOk, PostFile, TextHeaderOk, TailOk, PhdrsOk, TablesOk;
    hide PostSame, GapsZero, HeadSame;
    hide HeaderSame, TableAtEnd, SegmentStart, PaddingEndsOnPage;
    Checks(p);
    OneText(p.o, p.t, t);
    OneFirst(p.o, t, p.f, f);
  }

  /** The checker is determinate: against one regular OLD file it accepts at most one NEW file. */
  lemma {:induction false} Determinacy(old': Bytes, d1: Bytes, d2: Bytes)
    requires ParseElf(old').Some? && ParseElf(d1).Some? && ParseElf(d2).Some? && Regular(ParseElf(old').value)
    requires Accepts(ParseElf(old').value, ParseElf(d1).value) && Accepts(ParseElf(old').value, ParseElf(d2).value)
    ensures d1 == d2
  {
    var o, a, b := ParseElf(old').value, ParseElf(d1).value, ParseElf(d2).value;
    assert WellParsed(o) && WellParsed(a) && WellParsed(b) && a.data == d1 && b.data == d2;
    var t: nat, f: nat :| RegularAt(o, t, f);
    var p: Pair :| p.o == o && p.n == a && Passes(p);
    var q: Pair :| q.o == o && q.n == b && Passes(q);
    assert Accepted(p) && Accepted(q);
    hide *;
    RuleFollowed(p, t, f);
    Agreement(p, q);
    SameBytes(p, q);
  }

  lemma AgreeLength(p: Pair, q: Pair)
    requires Agree(p, q)
    ensures |p.n.data| == |q.n.data|
  {
    hide ParsePhdrs, ParseSections, U;
  }

  lemma {:induction false} SameBytes(p: Pair, q: Pair)
    requires Accepted(p) && Accepted(q) && Agree(p, q)
    ensures p.n.data == q.n.data
  {
    hide *;
    AgreeLength(p, q);
    forall k: nat | k < |p.n.data|
      ensures p.n.data[k] == q.n.data[k]
    {
      SameByte(p, q, k);
    }
  }

  // ---- the shape of an accepted file ----

  /** Byte j of a run of code-end words. */
  function CodeEndByte(j: nat): byte {
    if j % 4 < 2 then 0 else if j % 4 == 2 then 0x9F else 0xBF
  }

  lemma {:induction false} CodeEndWord(b: Bytes)
    requires IsCodeEnd(b)
    ensures b == [0, 0, 0x9F, 0xBF]
  {
    var w: Bytes := [0, 0, 0x9F, 0xBF];
    assert w[1..] == [0, 0x9F, 0xBF] && w[1..][1..] == [0x9F, 0xBF] && w[1..][1..][1..] == [0xBF]
      && w[1..][1..][1..][1..] == [];
    assert Unpack([]) == 0;
    assert Unpack([0xBF]) == 0xBF;
    assert Unpack([0x9F, 0xBF]) == 0x9F + 256 * 0xBF;
    assert Unpack([0, 0x9F, 0xBF]) == 256 * (0x9F + 256 * 0xBF);
    assert Unpack(w) == 0xBF9F0000;
    UnpackInjective(b, w);
  }

  lemma {:induction false} TailByte(o: Bytes, a: Bytes, off: nat, size: nat, newSize: nat, addr: nat, k: nat)
    requires off + size <= |o| && off + newSize <= |a| && off + size <= k < off + newSize
    requires TailOk(Slice(o, off, off + size), Slice(a, off, off + newSize), size, newSize, addr)
    ensures a[k] == CodeEndByte(k - off - size)
  {
    hide Slice, IsCodeEnd, Word, TailOk;
    var x := Slice(a, off, off + newSize);
    var i := k - off - size;
    TailWordAt(Slice(o, off, off + size), x, size, newSize, addr, i);
    WordByte(x, size, i / 4, i % 4);
    assert x[k - off] == a[k];
  }

  lemma {:induction false} WordByte(x: Bytes, base: nat, w: nat, j: nat)
    requires base + 4 * w + 4 <= |x| && j < 4 && IsCodeEnd(Word(x, base, w))
    ensures x[base + 4 * w + j] == CodeEndByte(4 * w + j)
  {
    CodeEndWord(Word(x, base, w));
    hide IsCodeEnd;
    assert Word(x, base, w)[j] == x[base + 4 * w + j];
  }

  lemma {:induction false} MaskShift(p: Pair, pos: int)
    requires p.Indexed() && forall i :: 0 <= i < |p.o.sections| ==> SectionOk(p, i)
    ensures SymbolMask(p, p.o, pos) <==> SymbolMask(p, p.n, pos + p.FileShift())
  {
    hide FirstAlloc, SymbolCount, Delta, SymbolSection;
    forall i: nat, j: nat | Moves(p, i, j)
      ensures ValueField(p.n, i, j) == ValueField(p.o, i, j) + p.FileShift()
    {
      assert SectionOk(p, i);
    }
    hide Moves, SectionOk;
    if SymbolMask(p, p.o, pos) {
      var i: nat, j: nat :| Moves(p, i, j) && ValueField(p.o, i, j) <= pos < ValueField(p.o, i, j) + 8;
      assert ValueField(p.n, i, j) <= pos + p.FileShift() < ValueField(p.n, i, j) + 8;
    }
    if SymbolMask(p, p.n, pos + p.FileShift()) {
      var i: nat, j: nat :| Moves(p, i, j) && ValueField(p.n, i, j) <= pos + p.FileShift() < ValueField(p.n, i, j) + 8;
      assert ValueField(p.o, i, j) <= pos < ValueField(p.o, i, j) + 8;
    }
  }

  lemma {:induction false} ShiftedByte(p: Pair, k: nat)
    requires p.Indexed() && PostSame(p) && p.Fn().offset <= k < p.n.shoff <= |p.n.data|
    requires p.n.shoff - p.o.shoff == p.FileShift() && p.Fo().offset <= p.o.shoff <= |p.o.data|
    requires !SymbolMask(p, p.n, k) && !SymbolMask(p, p.o, k - p.FileShift())
    ensures 0 <= k - p.FileShift() < |p.o.data| && p.n.data[k] == p.o.data[k - p.FileShift()]
  {
    hide SymbolMask;
    var j := k - p.Fn().offset;
    assert PostByte(p, p.o, p.Fo().offset, j) == PostByte(p, p.n, p.Fn().offset, j);
  }

  lemma {:induction false} OldTableAfterFirst(p: Pair)
    requires p.Indexed() && TableAtEnd(p.o) && PostFile(p.o, p.t, p.f)
    ensures p.Fo().offset <= p.o.shoff <= |p.o.data|
  {
  }

  lemma {:induction false} HeadByteOf(p: Pair, k: nat)
    requires p.Indexed() && HeadSame(p.o, p.n, p.OldEnd()) && k < p.OldEnd() <= |p.o.data| && p.OldEnd() <= |p.n.data|
    requires p.n.phoff == p.o.phoff && p.n.phnum == p.o.phnum && !HeadMask(p.n, k)
    ensures p.n.data[k] == p.o.data[k]
  {
    assert HeadByte(p.o, k) == HeadByte(p.n, k);
  }

  /** Every byte of an accepted file before its section headers: OLD's byte, the code-end tail, a
      zero gap, or OLD's byte uniformly shifted; only forced fields are exempt. */
  lemma {:induction false} AcceptedByte(p: Pair, k: nat)
    requires Accepted(p) && k < |p.n.data|
    ensures p.Indexed() && |p.n.data| == |p.o.data| + p.FileShift()
      && p.NewEnd() == p.OldEnd() + TailLength(p.Ot().size)
    ensures k < p.OldEnd() && !HeadMask(p.n, k) ==> k < |p.o.data| && p.n.data[k] == p.o.data[k]
    ensures p.OldEnd() <= k < p.NewEnd() ==> p.n.data[k] == CodeEndByte(k - p.OldEnd())
    ensures p.NewEnd() <= k < p.Fn().offset ==> p.n.data[k] == 0
    ensures p.Fn().offset <= k < p.n.shoff && !SymbolMask(p, p.n, k) ==>
      0 <= k - p.FileShift() < |p.o.data| && p.n.data[k] == p.o.data[k - p.FileShift()]
  {
    hide Accepted, OnlyText, IsFirst, WellParsed, PlacementOk, PostFile, TextHeaderOk, TailOk, TailLength, PhdrsOk;
    hide TablesOk, PostSame, GapsZero, HeadSame;
    hide HeaderSame, U, ParsePhdrs, ParseSections, Payload, SectionOk, SectionInFile, SameKind, Slice, SymbolMask;
    hide CodeEndByte, TableAtEnd, HeadMask;
    Checks(p);
    TextGrows(p);
    SameLayout(p);
    OldTableAfterFirst(p);
    OldLength(p);
    if k < p.OldEnd() {
      if !HeadMask(p.n, k) {
        HeadByteOf(p, k);
      }
    } else if k < p.NewEnd() {
      TailByte(p.o.data, p.n.data, p.Ot().offset, p.Ot().size, p.Nt().size, p.Nt().addr, k);
    } else if k < p.Fn().offset {
      GapByte(p, k);
    } else if k < p.n.shoff && !SymbolMask(p, p.n, k) {
      forall i | 0 <= i < |p.o.sections|
        ensures SectionOk(p, i)
      {
        SectionCheck(p, i);
      }
      MaskShift(p, k - p.FileShift());
      ShiftedByte(p, k);
    }
  }

  lemma {:induction false} OldLength(p: Pair)
    requires WellParsed(p.o) && TableAtEnd(p.o)
    ensures |p.o.data| == p.o.shoff + 64 * p.o.shnum
  {
    hide U, ParsePhdrs, ParseSections, SectionInFile;
  }

  // ---- the fields that a byte comparison exempts ----

  /** n is OLD's header i with only what growing .text forces. */
  ghost predicate SectionForced(p: Pair, i: nat, n: Section)
    requires p.Indexed() && i < |p.o.sections|
  {
    var s := p.o.sections[i];
    SameKind(s, n) &&
    match ClassOf(p.o, p.t, i)
    case Text => n.offset == s.offset && n.addr == s.addr && n.size == s.size + TailLength(s.size)
    case Post =>
      && n.offset == s.offset + p.FileShift() && n.addr == s.addr + (if s.Alloc() then p.AddrShift() else 0)
      && (if s.Nobits() then n.size < PAGE && ((s.addr + s.size) % PAGE == 0 ==> (n.addr + n.size) % PAGE == 0)
          else n.size == s.size)
    case _ => n == s
  }

  lemma {:induction false} HeaderForced(p: Pair, i: nat)
    requires p.Indexed() && i < |p.o.sections| && p.t == p.u && SectionOk(p, i) && TextHeaderOk(p)
    requires p.Nt().size == p.Ot().size + TailLength(p.Ot().size)
    ensures SectionForced(p, i, p.n.sections[i])
  {
    hide FirstAlloc, TailLength;
  }

  lemma {:induction false} SectionsForced(p: Pair)
    requires Accepted(p)
    ensures p.Indexed() && p.t == p.u && p.n.shnum == |p.o.sections| && p.n.shoff + 64 * p.n.shnum == |p.n.data|
    ensures forall i :: 0 <= i < |p.o.sections| ==> SectionForced(p, i, ParseSection(p.n.data, p.n.shoff + 64 * i))
  {
    hide Accepted, OnlyText, IsFirst, WellParsed, PlacementOk, PostFile, SectionOk, SectionInFile, TextHeaderOk, TailOk;
    hide TailLength, PhdrsOk, TablesOk, PostSame, GapsZero, HeadSame, HeaderSame, TableAtEnd, FirstAlloc, Payload;
    hide Slice;
    hide SectionForced, ParseSection, ParsePhdrs, U;
    Checks(p);
    SameText(p);
    TextGrows(p);
    SameLayout(p);
    forall i | 0 <= i < |p.o.sections|
      ensures SectionForced(p, i, ParseSection(p.n.data, p.n.shoff + 64 * i))
    {
      SectionCheck(p, i);
      HeaderForced(p, i);
    }
  }

  lemma {:induction false} PhdrsForced(p: Pair)
    requires Accepted(p)
    ensures p.Indexed() && p.n.phnum == |p.o.phdrs| && p.n.phoff + 56 * p.n.phnum <= |p.n.data|
    ensures forall i :: 0 <= i < |p.o.phdrs| ==> PhdrOk(p, p.o.phdrs[i], ParsePhdr(p.n.data, p.n.phoff + 56 * i))
  {
    hide Accepted, OnlyText, IsFirst, WellParsed, PlacementOk, PostFile, TextHeaderOk, TailOk, PhdrOk, LoadOk;
    hide CoversText;
    hide TablesOk, PostSame, GapsZero, HeadSame, HeaderSame, TableAtEnd, FirstAlloc, Payload, Slice, ParsePhdr, U;
    hide ParseSections;
    Checks(p);
    SameLayout(p);
  }

  lemma {:induction false} TableInFile(p: Pair, e: Elf, i: nat)
    requires p.Indexed() && i < |p.o.sections| && |e.sections| == |p.o.sections| && p.o.sections[i].IsSymbolTable()
    requires SameKind(p.o.sections[i], e.sections[i]) && SectionInFile(e.sections[i], |e.data|)
    ensures !e.sections[i].Nobits() && e.sections[i].offset + e.sections[i].size <= |e.data|
  {
  }

  lemma MovingTable(p: Pair, i: nat, j: nat)
    requires p.Indexed() && Moves(p, i, j)
    ensures i < |p.o.sections| == |p.n.sections| && p.o.sections[i].IsSymbolTable()
      && SameKind(p.o.sections[i], p.o.sections[i])
  {
    hide ClassOf, Delta, SymbolSection, SymbolCount;
  }

  lemma {:induction false} TableFacts(p: Pair, i: nat)
    requires Accepted(p) && p.Indexed() && i < |p.o.sections| && p.o.sections[i].IsSymbolTable()
    ensures TableOk(p, i) && SameKind(p.o.sections[i], p.n.sections[i])
    ensures SectionInFile(p.o.sections[i], |p.o.data|) && SectionInFile(p.n.sections[i], |p.n.data|)
  {
    hide Accepted, OnlyText, IsFirst, WellParsed, PlacementOk, PostFile, SectionInFile, TextHeaderOk, TailOk, PhdrsOk;
    hide PostSame, GapsZero, HeadSame, HeaderSame, TableAtEnd, FirstAlloc, Payload, Slice, TableOk, ClassOf, PostOk;
    hide SameKind;
    Checks(p);
    SectionCheck(p, i);
  }

  lemma {:induction false} ValueForced(p: Pair, i: nat, j: nat)
    requires Accepted(p) && p.Indexed() && Moves(p, i, j)
    ensures ValueField(p.o, i, j) + 8 <= |p.o.data| && ValueField(p.n, i, j) + 8 <= |p.n.data|
    ensures j < SymbolCount(p.o, p.o.sections[i])
    ensures U(p.n.data, ValueField(p.n, i, j), 8)
         == U(p.o.data, ValueField(p.o, i, j), 8) + Delta(p, SymbolSection(p.o, p.o.sections[i], j))
  {
    hide *;
    MovingTable(p, i, j);
    TableFacts(p, i);
    TableInFile(p, p.o, i);
    TableInFile(p, p.n, i);
    MovedValue(p, i, j);
    ValueOf(p.o, p.o.sections[i], j);
    FieldOf(p, i, j);
  }

  lemma FieldOf(p: Pair, i: nat, j: nat)
    requires p.Indexed() && i < |p.o.sections| && p.o.sections[i].link < |p.o.sections|
    requires j < SymbolCount(p.o, p.o.sections[i])
    ensures ValueField(p.o, i, j) == p.o.sections[i].offset + 24 * j + 8
    ensures SymbolAt(p.o, p.o.sections[i], j).shndx == SymbolSection(p.o, p.o.sections[i], j)
  {
    hide CStr, U, Payload;
  }

  /** Every field exempt from the byte comparison of an accepted file, read back from its bytes: the
      table offset, each section and program header, and each moved symbol value. */
  lemma {:induction false} AcceptedFields(p: Pair)
    requires Accepted(p)
    ensures p.Indexed() && |p.o.data| >= 64 && |p.n.data| >= 64
    ensures U(p.n.data, 40, 8) == U(p.o.data, 40, 8) + p.FileShift()
    ensures p.n.shoff + 64 * |p.o.sections| == |p.n.data| && p.n.phoff + 56 * |p.o.phdrs| <= |p.n.data|
    ensures forall i :: 0 <= i < |p.o.sections| ==> SectionForced(p, i, ParseSection(p.n.data, p.n.shoff + 64 * i))
    ensures forall i :: 0 <= i < |p.o.phdrs| ==> PhdrOk(p, p.o.phdrs[i], ParsePhdr(p.n.data, p.n.phoff + 56 * i))
    ensures forall i: nat, j: nat :: Moves(p, i, j) ==>
      && ValueField(p.o, i, j) + 8 <= |p.o.data| && ValueField(p.n, i, j) + 8 <= |p.n.data|
      && U(p.n.data, ValueField(p.n, i, j), 8)
         == U(p.o.data, ValueField(p.o, i, j), 8) + Delta(p, SymbolSection(p.o, p.o.sections[i], j))
  {
    SectionsForced(p);
    PhdrsForced(p);
    OffsetForced(p);
    hide Accepted, U, SectionForced, PhdrOk, ParseSection, ParsePhdr, Delta, ClassOf, SymbolSection, SymbolCount;
    forall i: nat, j: nat | Moves(p, i, j)
      ensures ValueField(p.o, i, j) + 8 <= |p.o.data| && ValueField(p.n, i, j) + 8 <= |p.n.data|
      ensures U(p.n.data, ValueField(p.n, i, j), 8)
           == U(p.o.data, ValueField(p.o, i, j), 8) + Delta(p, SymbolSection(p.o, p.o.sections[i], j))
    {
      ValueForced(p, i, j);
    }
  }

  lemma {:induction false} OffsetForced(p: Pair)
    requires Accepted(p)
    ensures p.Indexed() && |p.o.data| >= 64 && |p.n.data| >= 64
    ensures U(p.n.data, 40, 8) == U(p.o.data, 40, 8) + p.FileShift()
  {
    Checks(p);
    hide Accepted, OnlyText, IsFirst, PlacementOk, PostFile, SectionOk, SectionInFile, TextHeaderOk, TailOk;
    hide PhdrsOk, TablesOk, PostSame, GapsZero, HeadSame, HeaderSame, TableAtEnd, FirstAlloc, U, ParsePhdrs;
    hide ParseSections;
  }
}
