/** The code-end checker in full: the masks and tables it works with accept exactly the pairs of files that a
    description on bytes and header fields allows. */
module CodeEndExact {
  import opened Wrappers
  import opened Bytes
  import opened ElfFormat
  import opened CodeEnd
  import opened CodeEndLaws
  import opened CodeEndConverse
  import S = CodeEndSynth

  // ---- the description ----

  /** Section t is the only executable one called `.text`. */
  ghost predicate SoleText(e: Elf, t: nat) {
    && t < |e.sections|
    && forall i :: 0 <= i < |e.sections| ==>
         (i == t <==>
            SectionName(e, e.sections[i]) == [0x2E, 0x74, 0x65, 0x78, 0x74] && e.sections[i].flags / 4 % 2 == 1)
  }

  /** Section f has the smallest offset of those after .text that are in the file, the first of several. */
  ghost predicate FirstAfter(p: Pair)
    requires p.Indexed()
  {
    && After(p, p.f) && p.o.sections[p.f].kind != 8
    && forall i: nat :: i < |p.o.sections| && After(p, i) && p.o.sections[i].kind != 8 ==>
         var a, b := p.o.sections[p.f].offset, p.o.sections[i].offset;
         a <= b && (i < p.f ==> a < b)
  }

  /** The fields of a section header that never change. */
  ghost predicate FieldsKept(s: Section, n: Section) {
    && n.nameIdx == s.nameIdx && n.kind == s.kind && n.flags == s.flags && n.link == s.link
    && n.info == s.info && n.align == s.align && n.entsize == s.entsize
  }

  /** Header i of NEW, when addresses after .text move by d. */
  ghost predicate HeaderFits(p: Pair, i: nat, d: int)
    requires p.Indexed() && i < |p.o.sections|
  {
    var s, n := p.o.sections[i], p.n.sections[i];
    FieldsKept(s, n) &&
    if i == p.t then n.offset == s.offset && n.addr == s.addr && s.kind != 0
    else if After(p, i) then
      && n.offset - s.offset == p.n.sections[p.f].offset - p.o.sections[p.f].offset
      && n.addr - s.addr == (if s.flags / 2 % 2 == 1 then d else 0)
      && (if s.kind == 8 then n.size < 4096 && ((s.addr + s.size) % 4096 == 0 ==> (n.addr + n.size) % 4096 == 0)
          else n.size == s.size)
    else n == s && (s.kind == 0 || s.kind == 8 || s.offset + s.size <= p.o.sections[p.t].offset)
  }

  /** y is the least number from x on that is a multiple of a. */
  ghost predicate Least(y: nat, x: nat, a: nat) {
    if a <= 1 then y == x else x <= y < x + a && y % a == 0
  }

  /** y is where a section of this alignment starts a new segment after dot. */
  ghost predicate Starts(y: nat, dot: nat, align: nat) {
    Least(y, (dot + 4095) / 4096 * 4096 + dot % 4096, align)
  }

  /** The first later section comes after the grown .text, and where OLD places it by the linker's rule, NEW does. */
  ghost predicate Placed(p: Pair)
    requires p.Indexed()
  {
    var ot, nt, fo, fn := p.o.sections[p.t], p.n.sections[p.t], p.o.sections[p.f], p.n.sections[p.f];
    && nt.offset + nt.size <= fn.offset
    && (fo.flags / 2 % 2 == 1 && Starts(fo.addr, ot.addr + ot.size, fo.align) ==>
          && Starts(fn.addr, ot.addr + nt.size, fo.align)
          && fn.offset < nt.offset + nt.size + 4096 && fn.offset % 4096 == fn.addr % 4096)
  }

  /** The program headers of NEW. */
  ghost predicate SegmentsFit(p: Pair, d: int)
    requires p.Indexed()
  {
    && |p.n.phdrs| == |p.o.phdrs|
    && (forall i :: 0 <= i < |p.o.phdrs| ==> Expected(p, p.o.phdrs[i], p.n.phdrs[i], d,
          Padding(p, p.o, |p.o.sections|), Padding(p, p.n, |p.o.sections|)))
    && (forall i :: 0 <= i < |p.n.phdrs| ==>
          var h := p.n.phdrs[i];
          h.kind == 1 ==> (h.align > 1 ==> h.offset % h.align == h.vaddr % h.align) && h.filesz <= h.memsz)
    && exists i ::
         && 0 <= i < |p.n.phdrs| && p.n.phdrs[i].kind == 1 && p.n.phdrs[i].flags % 2 == 1
         && p.n.phdrs[i].vaddr <= p.n.sections[p.t].addr
         && p.n.sections[p.t].addr + p.n.sections[p.t].size <= p.n.phdrs[i].vaddr + p.n.phdrs[i].memsz
  }

  /** All payloads, then the section headers, then the end of the file. */
  ghost predicate HeadersLast(e: Elf) {
    && |e.data| == e.shoff + 64 * e.shnum
    && forall i :: 0 <= i < |e.sections| && e.sections[i].kind != 8 ==>
         e.sections[i].offset + e.sections[i].size <= e.shoff
  }

  /** .text grows to whole cache lines and three more. */
  ghost predicate TextFits(p: Pair)
    requires p.Indexed()
  {
    var ot, nt := p.o.sections[p.t], p.n.sections[p.t];
    && ot.kind != 8 && ot.size % 4 == 0 && nt.size == ot.size + (128 - ot.size % 128) % 128 + 384
    && (nt.addr + nt.size) % 128 == 0
  }

  /** pos is a byte of the value of a symbol that moves, in a table after .text. */
  ghost predicate InMovedValue(p: Pair, pos: int)
    requires p.Indexed()
  {
    exists i: nat, j: nat :: MovesAt(p, i, j) && p.o.sections[i].offset + 24 * j + 8 <= pos
      && pos < p.o.sections[i].offset + 24 * j + 16
  }

  ghost predicate MovesAt(p: Pair, i: nat, j: nat): (b: bool)
    requires p.Indexed()
    ensures b ==> i < |p.o.sections|
  {
    && i < |p.o.sections| && (p.o.sections[i].kind == 2 || p.o.sections[i].kind == 11) && After(p, i)
    && j < SymbolCount(p.o, p.o.sections[i]) && p.o.sections[i].link < |p.o.sections|
    && SectionMove(p, SymbolAt(p.o, p.o.sections[i], j).shndx) != 0
  }

  /** The regions of both files follow each other inside the files, and the last one shifts as the table does. */
  ghost predicate RegionsFit(p: Pair)
    requires p.Indexed()
  {
    var oldEnd, newEnd := p.o.sections[p.t].offset + p.o.sections[p.t].size,
      p.n.sections[p.t].offset + p.n.sections[p.t].size;
    var a, b := p.o.sections[p.f].offset, p.n.sections[p.f].offset;
    && oldEnd <= |p.o.data| && newEnd <= |p.n.data| && a <= p.o.shoff <= |p.o.data| && b <= p.n.shoff <= |p.n.data|
    && p.n.shoff - p.o.shoff == b - a
  }

  /** Up to the end of the old .text: the ELF header, the rest, and .text itself without exception. */
  ghost predicate FrontFits(p: Pair)
    requires p.Indexed()
  {
    var o, n, start := p.o.data, p.n.data, p.o.sections[p.t].offset;
    var end := start + p.o.sections[p.t].size;
    && (forall k: nat :: k < 64 && !(0x28 <= k < 0x30) && k < |o| && k < |n| ==> n[k] == o[k])
    && (forall k: nat ::
          && k < end && !(0x28 <= k < 0x30) && !(p.o.phoff <= k < p.o.phoff + 56 * p.o.phnum)
          && k < |o| && k < |n| ==>
            n[k] == o[k])
    && (forall k: nat :: start <= k < end && k < |o| && k < |n| ==> n[k] == o[k])
  }

  /** Code-end words up to the end of the new .text, then zeros up to the next section, in OLD as well. */
  ghost predicate MiddleFits(p: Pair)
    requires p.Indexed()
  {
    var o, n := p.o.data, p.n.data;
    var oldEnd, newEnd := p.o.sections[p.t].offset + p.o.sections[p.t].size,
      p.n.sections[p.t].offset + p.n.sections[p.t].size;
    && (forall k: nat :: oldEnd <= k < newEnd && k < |n| ==>
          n[k] == if (k - oldEnd) % 4 < 2 then 0 else if (k - oldEnd) % 4 == 2 then 0x9F else 0xBF)
    && (forall k: nat :: oldEnd <= k < p.o.sections[p.f].offset && k < |o| ==> o[k] == 0)
    && (forall k: nat :: newEnd <= k < p.n.sections[p.f].offset && k < |n| ==> n[k] == 0)
  }

  /** From the next section to the section headers the bytes are the same, outside the values of moved symbols. */
  ghost predicate BackFits(p: Pair)
    requires p.Indexed() && RegionsFit(p)
  {
    forall k: nat :: p.o.sections[p.f].offset <= k < p.o.shoff && !InMovedValue(p, k) ==>
      p.o.data[k] == p.n.data[k + (p.n.shoff - p.o.shoff)]
  }

  /** The symbols of table i keep their fields and move with their sections. */
  ghost predicate TableFits(p: Pair, i: nat)
    requires p.Indexed() && i < |p.o.sections|
  {
    var s, n := p.o.sections[i], p.n.sections[i];
    && s.link < |p.o.sections| && n.link < |p.n.sections| && SymbolCount(p.o, s) == SymbolCount(p.n, n)
    && forall j :: 0 <= j < SymbolCount(p.o, s) ==>
         var x, y := SymbolAt(p.o, s, j), SymbolAt(p.n, n, j);
         && y.name == x.name && y.info == x.info && y.other == x.other && y.shndx == x.shndx && y.size == x.size
         && y.value == x.value + SectionMove(p, x.shndx)
  }

  ghost predicate TablesFit(p: Pair)
    requires p.Indexed()
  {
    forall i: nat :: i < |p.o.sections| && (p.o.sections[i].kind == 2 || p.o.sections[i].kind == 11) ==> TableFits(p, i)
  }

  /** Wherever `_DYNAMIC` stands in a table that is kept, it has the new address of `.dynamic`. */
  ghost predicate DynamicFits(p: Pair)
    requires p.Indexed() && TablesFit(p)
  {
    forall i: nat, j: nat, d: nat ::
      && LastOfName(p.o, i) && FirstDynamic(p.o, d) && j < SymbolCount(p.o, p.o.sections[i])
      && SymbolAt(p.o, p.o.sections[i], j).name == [0x5F, 0x44, 0x59, 0x4E, 0x41, 0x4D, 0x49, 0x43] ==>
        SymbolAt(p.n, p.n.sections[i], j).value == p.n.sections[d].addr
  }

  /** The symbol is a function with code in .text. */
  ghost predicate Kernel(p: Pair, x: Symbol) {
    x.info % 16 == 2 && x.shndx == p.t && x.size != 0
  }

  /** The symbol describes a kernel: data in memory, 64 bytes or called *.kd. */
  ghost predicate Descriptor(p: Pair, x: Symbol)
    requires p.Indexed()
  {
    && x.info % 16 == 1 && x.shndx < |p.o.sections|
    && (x.size == 64 || (|x.name| >= 3 && x.name[|x.name| - 3..] == [0x2E, 0x6B, 0x64]))
    && var s := p.o.sections[x.shndx];
       s.kind != 8 && s.flags / 2 % 2 == 1 && s.flags / 4 % 2 == 0
  }

  /** A kernel lies in .text. */
  ghost predicate KernelPlaced(p: Pair, x: Symbol)
    requires p.Indexed()
  {
    var ot := p.o.sections[p.t];
    ot.addr <= x.value && x.value + x.size <= ot.addr + ot.size
  }

  /** A descriptor stays where it is, with the same bytes. */
  ghost predicate DescriptorStays(p: Pair, x: Symbol, y: Symbol)
    requires p.Indexed() && x.shndx < |p.o.sections|
  {
    var s, n := p.o.sections[x.shndx], p.n.sections[x.shndx];
    var was := PySlice(Payload(p.o, s), x.value - s.addr, x.value - s.addr + x.size);
    && y.value == x.value && |was| == x.size
    && was == PySlice(Payload(p.n, n), x.value - n.addr, x.value - n.addr + x.size)
  }

  /** Symbol j of table i, if it is a kernel or a descriptor, is in order. */
  ghost predicate SymbolVerified(p: Pair, i: nat, j: nat)
    requires p.Indexed() && i < |p.o.sections| && TableFits(p, i) && j < SymbolCount(p.o, p.o.sections[i])
  {
    var x, y := SymbolAt(p.o, p.o.sections[i], j), SymbolAt(p.n, p.n.sections[i], j);
    (Kernel(p, x) ==> KernelPlaced(p, x)) && (Descriptor(p, x) ==> DescriptorStays(p, x, y))
  }

  /** Table i has a kernel, and all its kernels and descriptors are in order. */
  ghost predicate KernelsFit(p: Pair, i: nat)
    requires p.Indexed() && i < |p.o.sections| && TableFits(p, i)
  {
    && (exists j :: 0 <= j < SymbolCount(p.o, p.o.sections[i]) && Kernel(p, SymbolAt(p.o, p.o.sections[i], j)))
    && forall j :: 0 <= j < SymbolCount(p.o, p.o.sections[i]) ==> SymbolVerified(p, i, j)
  }

  /** NEW is OLD with a code-end tail and what that forces, in these positions. */
  ghost predicate Conforms(p: Pair) {
    && p.Indexed() && p.u == p.t && SoleText(p.o, p.t) && SoleText(p.n, p.t) && FirstAfter(p)
    && p.n.shoff % 8 == 0 && HeadersLast(p.o) && HeadersLast(p.n) && TextFits(p) && Placed(p)
    && RegionsFit(p) && FrontFits(p) && MiddleFits(p) && BackFits(p)
    && (exists d :: Moved(p, d) && (forall i: nat :: i < |p.o.sections| ==> HeaderFits(p, i, d)) && SegmentsFit(p, d))
    && TablesFit(p) && DynamicFits(p)
    && exists i: nat :: i < |p.o.sections| && KernelTableAt(p.o, i) && TableFits(p, i) && KernelsFit(p, i)
  }

  // ---- check by check, both ways ----

  lemma {:induction false} TextIs(e: Elf, t: nat)
    ensures OnlyText(e, t) <==> SoleText(e, t)
  {
    hide SectionName;
    if OnlyText(e, t) {
      forall i | 0 <= i < |e.sections|
        ensures SectionName(e, e.sections[i]) == [0x2E, 0x74, 0x65, 0x78, 0x74] && e.sections[i].flags / 4 % 2 == 1
           <==> i == t
      {
        assert IsText(e, e.sections[i]) <==> i == t;
      }
    }
    if SoleText(e, t) {
      assert forall i :: 0 <= i < |e.sections| ==> (IsText(e, e.sections[i]) <==> i == t);
    }
  }

  lemma {:induction false} FirstIs(p: Pair)
    requires p.Indexed()
    ensures IsFirst(p.o, p.t, p.f) <==> FirstAfter(p)
  {
    forall i: nat | i < |p.o.sections|
      ensures PostFile(p.o, p.t, i) <==> After(p, i) && p.o.sections[i].kind != 8
    {
      AfterIs(p, i);
      hide ClassOf, After;
    }
    hide PostFile, After;
  }

  lemma NextMultiple(q: int, r: int, a: nat)
    requires q < r
    ensures q * a + a <= r * a
  {
    assert r * a == q * a + (r - q) * a;
    assert (r - q - 1) * a >= 0;
    assert (r - q) * a == (r - q - 1) * a + a;
  }

  lemma {:induction false} Multiples(x: nat, a: nat, q: int, r: int)
    requires x <= q * a < x + a && x <= r * a < x + a
    ensures q == r
  {
    if q < r {
      NextMultiple(q, r, a);
    }
    if r < q {
      NextMultiple(r, q, a);
    }
  }

  lemma {:induction false} LeastIs(y: nat, x: nat, a: nat)
    ensures Least(y, x, a) <==> y == Align(x, a)
  {
    if a > 1 {
      S.AlignIs(x, a);
      var z := Align(x, a);
      hide Align;
      if Least(y, x, a) {
        assert y == y / a * a && z == z / a * a;
        Multiples(x, a, y / a, z / a);
      }
    }
  }

  lemma {:induction false} StartsIs(y: nat, dot: nat, align: nat)
    ensures Starts(y, dot, align) <==> y == SegmentStart(dot, align)
  {
    assert Align(dot, PAGE) == (dot + 4095) / 4096 * 4096;
    hide Align, Least;
    LeastIs(y, (dot + 4095) / 4096 * 4096 + dot % 4096, align);
  }

  lemma SkewIs(y: nat, x: nat, skew: nat)
    ensures y == AlignSkew(x, skew) <==> x <= y < x + 4096 && y % 4096 == skew % 4096
  {
  }

  lemma {:induction false} PlacedIs(p: Pair)
    requires p.Indexed() && p.u == p.t
    ensures PlacementOk(p) <==> Placed(p)
  {
    var ot, nt, fo, fn := p.o.sections[p.t], p.n.sections[p.t], p.o.sections[p.f], p.n.sections[p.f];
    StartsIs(fo.addr, ot.addr + ot.size, fo.align);
    StartsIs(fn.addr, ot.addr + nt.size, fo.align);
    SkewIs(fn.offset, nt.offset + nt.size, fn.addr);
    hide SegmentStart, AlignSkew, Starts;
  }

  lemma TableAtEndIs(e: Elf)
    ensures TableAtEnd(e) <==> HeadersLast(e)
  {
  }

  /** The address shift is the one distance that everything allocated after .text moves. */
  lemma {:induction false} MovedIs(p: Pair, d: int)
    requires p.Indexed() && Moved(p, d)
    ensures p.AddrShift() == d
  {
    var k := FirstAlloc(p.o, p.t, 0);
    forall i: nat | i < |p.o.sections|
      ensures PostAlloc(p.o, p.t, i) <==> After(p, i) && p.o.sections[i].flags / 2 % 2 == 1
    {
      AfterIs(p, i);
      hide ClassOf, After;
    }
    hide PostAlloc, After;
    if k == |p.o.sections| {
      assert forall i: nat :: i < |p.o.sections| ==> !PostAlloc(p.o, p.t, i);
    }
  }

  lemma {:induction false} HeaderIs(p: Pair, i: nat)
    requires p.Indexed() && p.u == p.t && i < |p.o.sections| && TextHeaderOk(p) && p.Ot().kind != 0
    ensures SectionOk(p, i) <==> HeaderFits(p, i, p.AddrShift())
  {
    AfterIs(p, i);
    hide FirstAlloc, After;
  }

  lemma {:induction false} SegmentsAre(p: Pair)
    requires p.Indexed() && p.u == p.t
    ensures PhdrsOk(p) <==> SegmentsFit(p, p.AddrShift())
  {
    PaddingIs(p, p.o, |p.o.sections|);
    PaddingIs(p, p.n, |p.o.sections|);
    forall h, q
      ensures PhdrOk(p, h, q) <==>
        Expected(p, h, q, p.AddrShift(), Padding(p, p.o, |p.o.sections|), Padding(p, p.n, |p.o.sections|))
    {
      PhdrIs(p, h, q);
    }
    hide PhdrOk, Expected, Padding, FirstAlloc;
    assert forall i :: 0 <= i < |p.n.phdrs| ==>
      var h := p.n.phdrs[i];
      LoadOk(h) <==>
        (h.kind == 1 ==> (h.align > 1 ==> h.offset % h.align == h.vaddr % h.align) && h.filesz <= h.memsz);
  }

  lemma {:induction false} PhdrIs(p: Pair, h: Phdr, q: Phdr)
    requires p.Indexed() && p.u == p.t
    ensures PhdrOk(p, h, q) <==>
      Expected(p, h, q, p.AddrShift(), Relro(p.o, p.t, p.o, |p.o.sections|), Relro(p.o, p.t, p.n, |p.o.sections|))
  {
    hide Relro, FirstAlloc;
  }

  // ---- bytes ----

  lemma {:induction false} HeaderBytesAre(o: Bytes, n: Bytes)
    requires |o| >= 64 && |n| >= 64
    ensures HeaderSame(o, n) <==> forall k: nat :: k < 64 && !(0x28 <= k < 0x30) && k < |o| && k < |n| ==> n[k] == o[k]
  {
  }

  lemma {:induction false} HeadIs(p: Pair, end: nat)
    requires end <= |p.o.data| && end <= |p.n.data| && p.n.phoff == p.o.phoff && p.n.phnum == p.o.phnum
    ensures HeadSame(p.o, p.n, end) <==>
      forall k: nat ::
        && k < end && !(0x28 <= k < 0x30) && !(p.o.phoff <= k < p.o.phoff + 56 * p.o.phnum)
        && k < |p.o.data| && k < |p.n.data| ==>
          p.n.data[k] == p.o.data[k]
  {
    assert |Slice(p.o.data, 0, end)| == end && |Slice(p.n.data, 0, end)| == end;
    hide Slice;
    forall k: nat | k < end
      ensures HeadByte(p.o, k) == HeadByte(p.n, k) <==>
        (!(0x28 <= k < 0x30) && !(p.o.phoff <= k < p.o.phoff + 56 * p.o.phnum) ==> p.n.data[k] == p.o.data[k])
    {
    }
  }

  lemma {:induction false} CodeEndIs(b: Bytes)
    ensures IsCodeEnd(b) <==> b == [0, 0, 0x9F, 0xBF]
  {
    if IsCodeEnd(b) {
      CodeEndWord(b);
    }
    if b == [0, 0, 0x9F, 0xBF] {
      assert b[1..] == [0, 0x9F, 0xBF] && b[1..][1..] == [0x9F, 0xBF] && b[1..][1..][1..] == [0xBF];
      assert b[1..][1..][1..][1..] == [];
      assert Unpack([0xBF]) == 0xBF;
      assert Unpack([0x9F, 0xBF]) == 0x9F + 256 * 0xBF;
      assert Unpack([0, 0x9F, 0xBF]) == 256 * (0x9F + 256 * 0xBF);
    }
  }

  /** The tail from byte base of b on consists of code-end words. */
  ghost predicate CodeEndFrom(b: Bytes, base: nat) {
    forall k: nat :: base <= k < |b| ==>
      b[k] == if (k - base) % 4 < 2 then 0 else if (k - base) % 4 == 2 then 0x9F else 0xBF
  }

  lemma {:induction false} WordsAre(b: Bytes, base: nat)
    requires base <= |b| && (|b| - base) % 4 == 0
    ensures (forall w :: 0 <= w < (|b| - base) / 4 ==> IsCodeEnd(Word(b, base, w))) <==> CodeEndFrom(b, base)
  {
    if forall w :: 0 <= w < (|b| - base) / 4 ==> IsCodeEnd(Word(b, base, w)) {
      forall k: nat | base <= k < |b|
        ensures b[k] == if (k - base) % 4 < 2 then 0 else if (k - base) % 4 == 2 then 0x9F else 0xBF
      {
        WordOfByte(b, base, k);
      }
    }
    if CodeEndFrom(b, base) {
      forall w | 0 <= w < (|b| - base) / 4
        ensures IsCodeEnd(Word(b, base, w))
      {
        ByteOfWord(b, base, w);
      }
    }
  }

  lemma {:induction false} WordOfByte(b: Bytes, base: nat, k: nat)
    requires base <= k < |b| && (|b| - base) % 4 == 0
    requires forall w :: 0 <= w < (|b| - base) / 4 ==> IsCodeEnd(Word(b, base, w))
    ensures b[k] == if (k - base) % 4 < 2 then 0 else if (k - base) % 4 == 2 then 0x9F else 0xBF
  {
    Quarter(|b| - base, k - base);
    var w, j := (k - base) / 4, (k - base) % 4;
    assert IsCodeEnd(Word(b, base, w));
    CodeEndIs(Word(b, base, w));
    hide IsCodeEnd;
    assert Word(b, base, w)[j] == b[k];
  }

  lemma {:induction false} ByteOfWord(b: Bytes, base: nat, w: nat)
    requires base <= |b| && (|b| - base) % 4 == 0 && w < (|b| - base) / 4 && CodeEndFrom(b, base)
    ensures base + 4 * w + 4 <= |b| && IsCodeEnd(Word(b, base, w))
  {
    var x := Word(b, base, w);
    assert x[0] == b[base + 4 * w] && x[1] == b[base + 4 * w + 1] && x[2] == b[base + 4 * w + 2]
      && x[3] == b[base + 4 * w + 3];
    assert x == [0, 0, 0x9F, 0xBF];
    CodeEndIs(x);
    hide IsCodeEnd;
  }

  lemma AlignDwords(size: nat)
    ensures AlignBytes(size) % 4 == 0 <==> size % 4 == 0
  {
    var n := AlignBytes(size);
    assert (size + n) % 128 == 0;
    hide AlignBytes;
    var q := (size + n) / 128;
    assert size + n == 128 * q;
    assert size + n == 4 * (32 * q);
  }

  lemma TailLines(size: nat)
    ensures (size + TailLength(size)) % 128 == 0
  {
    var n := AlignBytes(size);
    assert (size + n) % 128 == 0;
    hide AlignBytes;
    var q := (size + n) / 128;
    assert size + n + 384 == 128 * (q + 3);
  }

  lemma {:induction false} TailSizes(size: nat)
    ensures TailLength(size) == (128 - size % 128) % 128 + 384 && (size + TailLength(size)) % 128 == 0
    ensures AlignBytes(size) % 4 == 0 <==> size % 4 == 0
    ensures size % 4 == 0 ==> TailLength(size) % 4 == 0
  {
    AlignDwords(size);
    TailLines(size);
    assert AlignBytes(size) == (128 - size % 128) % 128;
    hide AlignBytes;
  }

  /** The tail check on the bytes of two payloads. */
  lemma {:induction false} TailIs(was: Bytes, now: Bytes, size: nat, newSize: nat, addr: nat)
    requires |was| == size && |now| == newSize
    ensures TailOk(was, now, size, newSize, addr) <==>
      && size % 4 == 0 && newSize == size + (128 - size % 128) % 128 + 384 && (addr + newSize) % 128 == 0
      && now[..size] == was && CodeEndFrom(now, size)
  {
    TailSizes(size);
    hide AlignBytes, IsCodeEnd, Word, CodeEndFrom;
    if size <= newSize && (newSize - size) % 4 == 0 {
      WordsAre(now, size);
    }
  }

  lemma {:induction false} TextBytesAre(o: Bytes, n: Bytes, off: nat, size: nat, newSize: nat)
    requires off + size <= |o| && off + newSize <= |n| && size <= newSize
    ensures n[off..off + newSize][..size] == o[off..off + size]
       <==> forall k: nat :: off <= k < off + size && k < |o| && k < |n| ==> n[k] == o[k]
    ensures CodeEndFrom(n[off..off + newSize], size) <==>
      forall k: nat :: off + size <= k < off + newSize && k < |n| ==>
        n[k] == if (k - (off + size)) % 4 < 2 then 0 else if (k - (off + size)) % 4 == 2 then 0x9F else 0xBF
  {
    var x, y := n[off..off + newSize], o[off..off + size];
    assert forall k: nat :: off <= k < off + newSize ==> x[k - off] == n[k];
    assert forall k: nat :: k < newSize ==> n[off + k] == x[k];
    assert forall k: nat :: off <= k < off + size ==> y[k - off] == o[k];
    if forall k: nat :: off <= k < off + size && k < |o| && k < |n| ==> n[k] == o[k] {
      forall k: nat | k < size
        ensures x[..size][k] == y[k]
      {
        assert n[off + k] == o[off + k];
      }
    }
    if x[..size] == y {
      forall k: nat | off <= k < off + size
        ensures n[k] == o[k]
      {
        assert x[..size][k - off] == y[k - off];
      }
    }
  }

  lemma {:induction false} GapIs(b: Bytes, lo: nat, hi: nat)
    requires hi <= |b|
    ensures AllZero(Slice(b, lo, hi)) <==> forall k: nat :: lo <= k < hi && k < |b| ==> b[k] == 0
  {
    if lo <= hi {
      var s := Slice(b, lo, hi);
      assert s == b[lo..hi];
      assert forall k: nat :: lo <= k < hi ==> s[k - lo] == b[k];
    }
  }

  // ---- symbols ----

  /** Symbols move exactly as their sections do. */
  ghost predicate MovesKnown(p: Pair)
    requires p.Indexed()
  {
    forall x: nat :: Delta(p, x) == SectionMove(p, x)
  }

  lemma {:induction false} KnowMoves(p: Pair)
    requires p.Indexed() && p.u == p.t && TextHeaderOk(p) && forall i :: 0 <= i < |p.o.sections| ==> SectionOk(p, i)
    ensures MovesKnown(p)
  {
    hide Delta, SectionMove, SectionOk, TextHeaderOk;
    forall x: nat
      ensures Delta(p, x) == SectionMove(p, x)
    {
      DeltaIsMove(p, x);
    }
  }

  lemma {:induction false} TableIs(p: Pair, i: nat)
    requires p.Indexed() && MovesKnown(p) && i < |p.o.sections|
    ensures TableOk(p, i) <==> TableFits(p, i)
  {
    hide Delta, SectionMove, SymbolAt, SymbolCount;
    var s, n := p.o.sections[i], p.n.sections[i];
    if s.link < |p.o.sections| && n.link < |p.n.sections| && SymbolCount(p.o, s) == SymbolCount(p.n, n) {
      forall j | 0 <= j < SymbolCount(p.o, s)
        ensures var x, y := SymbolAt(p.o, s, j), SymbolAt(p.n, n, j);
          SymbolOk(p, x, y) <==>
            && y.name == x.name && y.info == x.info && y.other == x.other && y.shndx == x.shndx && y.size == x.size
            && y.value == x.value + SectionMove(p, x.shndx)
      {
        assert Delta(p, SymbolAt(p.o, s, j).shndx) == SectionMove(p, SymbolAt(p.o, s, j).shndx);
      }
      hide SymbolOk;
    }
  }

  lemma {:induction false} TablesAre(p: Pair)
    requires p.Indexed() && MovesKnown(p)
    ensures TablesOk(p) <==> TablesFit(p)
  {
    hide TableOk, TableFits, MovesKnown;
    forall i: nat | i < |p.o.sections|
      ensures TableOk(p, i) <==> TableFits(p, i)
    {
      TableIs(p, i);
    }
  }

  lemma TableLinked(p: Pair, i: nat)
    requires p.Indexed() && TablesFit(p) && i < |p.o.sections|
    requires p.o.sections[i].kind == 2 || p.o.sections[i].kind == 11
    ensures p.o.sections[i].link < |p.o.sections| && p.n.sections[i].link < |p.n.sections|
    ensures SymbolCount(p.o, p.o.sections[i]) == SymbolCount(p.n, p.n.sections[i])
  {
    hide SymbolCount, SymbolAt, SectionMove;
    assert TableFits(p, i);
  }

  lemma {:induction false} MovesAre(p: Pair, i: nat, j: nat)
    requires p.Indexed() && MovesKnown(p) && TablesFit(p)
    ensures Moves(p, i, j) <==> MovesAt(p, i, j)
  {
    if i < |p.o.sections| && (p.o.sections[i].kind == 2 || p.o.sections[i].kind == 11) {
      TableLinked(p, i);
      AfterIs(p, i);
      if j < SymbolCount(p.o, p.o.sections[i]) {
        FieldOf(p, i, j);
        var x := SymbolAt(p.o, p.o.sections[i], j).shndx;
        assert Delta(p, x) == SectionMove(p, x);
      }
      hide After, ClassOf, SymbolCount, SymbolAt, SymbolSection, Delta, SectionMove, TablesFit, MovesKnown;
    }
  }

  lemma {:induction false} MaskIs(p: Pair, pos: int)
    requires p.Indexed() && MovesKnown(p) && TablesFit(p)
    ensures SymbolMask(p, p.o, pos) <==> InMovedValue(p, pos)
  {
    hide Moves, MovesAt, TablesFit, MovesKnown;
    if SymbolMask(p, p.o, pos) {
      var i: nat, j: nat :| Moves(p, i, j) && ValueField(p.o, i, j) <= pos < ValueField(p.o, i, j) + 8;
      MovesAre(p, i, j);
      assert MovesAt(p, i, j) && p.o.sections[i].offset + 24 * j + 8 <= pos;
    }
    if InMovedValue(p, pos) {
      var i: nat, j: nat :| MovesAt(p, i, j) && p.o.sections[i].offset + 24 * j + 8 <= pos
        && pos < p.o.sections[i].offset + 24 * j + 16;
      MovesAre(p, i, j);
      assert Moves(p, i, j) && ValueField(p.o, i, j) <= pos < ValueField(p.o, i, j) + 8;
    }
  }

  lemma {:induction false} PostIs(p: Pair)
    requires p.Indexed() && MovesKnown(p) && TablesFit(p) && forall i :: 0 <= i < |p.o.sections| ==> SectionOk(p, i)
    requires p.Fo().offset <= p.o.shoff <= |p.o.data| && p.Fn().offset <= p.n.shoff <= |p.n.data|
    requires p.n.shoff - p.o.shoff == p.Fn().offset - p.Fo().offset
    ensures PostSame(p) <==>
      forall k: nat :: p.Fo().offset <= k < p.o.shoff && !InMovedValue(p, k) ==>
        p.o.data[k] == p.n.data[k + (p.n.shoff - p.o.shoff)]
  {
    var a, b, len := p.Fo().offset, p.Fn().offset, p.o.shoff - p.Fo().offset;
    assert |Slice(p.o.data, a, p.o.shoff)| == len && |Slice(p.n.data, b, p.n.shoff)| == len;
    forall k: nat | k < len
      ensures PostByte(p, p.o, a, k) == PostByte(p, p.n, b, k) <==>
        (!InMovedValue(p, a + k) ==> p.o.data[a + k] == p.n.data[b + k])
    {
      PostByteIs(p, k);
    }
    hide InMovedValue, PostByte, Slice, SectionOk, TablesFit, MovesKnown;
    if PostSame(p) {
      forall k: nat | a <= k < p.o.shoff && !InMovedValue(p, k)
        ensures p.o.data[k] == p.n.data[k + (p.n.shoff - p.o.shoff)]
      {
        assert PostByte(p, p.o, a, k - a) == PostByte(p, p.n, b, k - a);
      }
    }
  }

  lemma {:induction false} PostByteIs(p: Pair, k: nat)
    requires p.Indexed() && MovesKnown(p) && TablesFit(p) && forall i :: 0 <= i < |p.o.sections| ==> SectionOk(p, i)
    requires p.Fo().offset + k < |p.o.data| && p.Fn().offset + k < |p.n.data|
    ensures PostByte(p, p.o, p.Fo().offset, k) == PostByte(p, p.n, p.Fn().offset, k) <==>
      (!InMovedValue(p, p.Fo().offset + k) ==> p.o.data[p.Fo().offset + k] == p.n.data[p.Fn().offset + k])
  {
    MaskIs(p, p.Fo().offset + k);
    MaskShift(p, p.Fo().offset + k);
    hide SymbolMask, InMovedValue, SectionOk, TablesFit, MovesKnown;
  }

  lemma {:induction false} FirstNamedFinds(o: Elf, name: Name, i: nat)
    requires i <= |o.sections|
    ensures var k := FirstNamed(o, name, i);
      && (k < |o.sections| ==> SectionName(o, o.sections[k]) == name)
      && forall l :: i <= l < k ==> SectionName(o, o.sections[l]) != name
    decreases |o.sections| - i
  {
    hide SectionName;
    if i < |o.sections| && SectionName(o, o.sections[i]) != name {
      FirstNamedFinds(o, name, i + 1);
    }
  }

  lemma {:induction false} FirstDynamicIs(o: Elf, d: nat)
    ensures FirstDynamic(o, d) <==> d < |o.sections| && FirstNamed(o, DYNAMIC_NAME, 0) == d
  {
    FirstNamedFinds(o, DYNAMIC_NAME, 0);
    if FirstDynamic(o, d) {
      FirstNamedIs(o, d, 0);
    }
    hide SectionName, FirstNamed;
  }

  lemma {:induction false} LastIs(o: Elf, i: nat)
    requires i < |o.sections| && (o.sections[i].kind == 2 || o.sections[i].kind == 11)
    ensures LastOfName(o, i) <==> TableNamed(o, SectionName(o, o.sections[i]), |o.sections|) == Some(i)
  {
    TableNamedIs(o, SectionName(o, o.sections[i]), |o.sections|);
    if LastOfName(o, i) {
      LastIsKept(o, i);
    }
    hide SectionName, TableNamed;
  }

  lemma {:induction false} DynamicIs(p: Pair)
    requires p.Indexed() && TablesOk(p) && TablesFit(p)
    ensures (forall i :: 0 <= i < |p.o.sections| && p.o.sections[i].IsSymbolTable() ==> DynamicOk(p, i))
       <==> DynamicFits(p)
  {
    var d := FirstNamed(p.o, DYNAMIC_NAME, 0);
    forall e: nat
      ensures FirstDynamic(p.o, e) <==> e < |p.o.sections| && d == e
    {
      FirstDynamicIs(p.o, e);
    }
    forall i: nat | i < |p.o.sections| && p.o.sections[i].IsSymbolTable()
      ensures LastOfName(p.o, i) <==> TableNamed(p.o, SectionName(p.o, p.o.sections[i]), |p.o.sections|) == Some(i)
    {
      LastIs(p.o, i);
    }
    forall i: nat | LastOfName(p.o, i)
      ensures i < |p.o.sections| && p.o.sections[i].IsSymbolTable()
    {
    }
    hide SectionName, TableNamed, FirstNamed, FirstDynamic, LastOfName, SymbolAt, SymbolCount;
    if forall i :: 0 <= i < |p.o.sections| && p.o.sections[i].IsSymbolTable() ==> DynamicOk(p, i) {
      forall i: nat, j: nat, e: nat | LastOfName(p.o, i) && FirstDynamic(p.o, e)
        && j < SymbolCount(p.o, p.o.sections[i]) && SymbolAt(p.o, p.o.sections[i], j).name == DYNAMIC_SYMBOL
        ensures SymbolAt(p.n, p.n.sections[i], j).value == p.n.sections[e].addr
      {
        assert DynamicOk(p, i);
      }
    }
    if DynamicFits(p) {
      forall i | 0 <= i < |p.o.sections| && p.o.sections[i].IsSymbolTable()
        ensures DynamicOk(p, i)
      {
      }
    }
  }

  // ---- kernels and descriptors ----

  lemma {:induction false} PrefixSlice(was: Bytes, now: Bytes, lo: nat, n: nat)
    requires lo + n <= |was| <= |now| && now[..|was|] == was
    ensures Slice(now, lo, lo + n) == Slice(was, lo, lo + n)
  {
    var x, y := now[lo..lo + n], was[lo..lo + n];
    forall k | 0 <= k < n
      ensures x[k] == y[k]
    {
      assert now[..|was|][lo + k] == was[lo + k];
    }
    assert x == y;
  }

  /** .text of NEW starts with .text of OLD. */
  ghost predicate TextKept(p: Pair)
    requires p.Indexed()
  {
    var was, now := Payload(p.o, p.Ot()), Payload(p.n, p.Nt());
    p.u == p.t && p.Ot().addr == p.Nt().addr && |was| == p.Ot().size && |was| <= |now| && now[..|was|] == was
  }

  /** A kernel's code is part of .text, which NEW starts with. */
  lemma {:induction false} KernelFits(p: Pair, x: Symbol, y: Symbol)
    requires p.Indexed() && TextKept(p) && Kernel(p, x)
    requires y.size == x.size && y.value == x.value + SectionMove(p, x.shndx)
    ensures KernelOk(p, x, y) <==> KernelPlaced(p, x)
  {
    assert SectionMove(p, x.shndx) == 0;
    hide Payload, Slice, SectionMove;
    if KernelPlaced(p, x) {
      PrefixSlice(Payload(p.o, p.Ot()), Payload(p.n, p.Nt()), x.value - p.Ot().addr, x.size);
    }
  }

  lemma {:induction false} DescriptorFits(p: Pair, x: Symbol, y: Symbol)
    requires p.Indexed() && x.shndx < |p.o.sections| && y.size == x.size
    ensures DescriptorOk(p, x, y) <==> DescriptorStays(p, x, y)
  {
    hide PySlice, Payload;
  }

  /** A slice counts negative bounds from the end, and never from before the start. */
  lemma {:induction false} SliceBounds(b: Bytes, lo: int, hi: int)
    ensures 0 <= lo <= hi <= |b| ==> PySlice(b, lo, hi) == b[lo..hi]
    ensures -|b| <= lo < 0 ==> PySlice(b, lo, hi) == PySlice(b, |b| + lo, hi)
    ensures -|b| <= hi < 0 ==> PySlice(b, lo, hi) == PySlice(b, lo, |b| + hi)
    ensures lo < -|b| ==> PySlice(b, lo, hi) == PySlice(b, 0, hi)
    ensures hi < -|b| ==> PySlice(b, lo, hi) == []
    ensures hi > |b| ==> PySlice(b, lo, hi) == PySlice(b, lo, |b|)
  {
  }

  lemma KindsAre(p: Pair, x: Symbol)
    requires p.Indexed()
    ensures (IsKernel(p, x) <==> Kernel(p, x)) && (IsDescriptor(p, x) <==> Descriptor(p, x))
    ensures Descriptor(p, x) ==> x.shndx < |p.o.sections|
  {
  }

  /** What the check asks of symbol x and its counterpart. */
  ghost predicate Checked(p: Pair, x: Symbol, y: Symbol)
    requires p.Indexed()
  {
    (IsKernel(p, x) ==> KernelOk(p, x, y)) && (IsDescriptor(p, x) ==> DescriptorOk(p, x, y))
  }

  lemma {:induction false} CheckedIs(p: Pair, x: Symbol, y: Symbol)
    requires p.Indexed() && TextKept(p) && y.size == x.size && y.value == x.value + SectionMove(p, x.shndx)
    ensures Checked(p, x, y) <==>
      (Kernel(p, x) ==> KernelPlaced(p, x)) && (Descriptor(p, x) ==> DescriptorStays(p, x, y))
  {
    KindsAre(p, x);
    hide IsKernel, IsDescriptor, KernelOk, DescriptorOk, SectionMove, Kernel, Descriptor, KernelPlaced;
    hide DescriptorStays, TextKept;
    if Kernel(p, x) {
      KernelFits(p, x, y);
    }
    if Descriptor(p, x) {
      DescriptorFits(p, x, y);
    }
  }

  lemma {:induction false} SymbolVerifiedIs(p: Pair, i: nat, j: nat)
    requires p.Indexed() && TextKept(p) && i < |p.o.sections| && TableFits(p, i)
    requires j < SymbolCount(p.o, p.o.sections[i])
    ensures var x, y := SymbolAt(p.o, p.o.sections[i], j), SymbolAt(p.n, p.n.sections[i], j);
      (Checked(p, x, y) <==> SymbolVerified(p, i, j)) && (IsKernel(p, x) <==> Kernel(p, x))
  {
    hide SymbolAt, SymbolCount, Checked, Kernel, Descriptor, KernelPlaced, DescriptorStays, TextKept, SectionMove;
    hide IsKernel;
    CheckedIs(p, SymbolAt(p.o, p.o.sections[i], j), SymbolAt(p.n, p.n.sections[i], j));
    KindsAre(p, SymbolAt(p.o, p.o.sections[i], j));
  }

  lemma {:induction false} AllVerified(p: Pair, i: nat)
    requires p.Indexed() && TextKept(p) && i < |p.o.sections| && TableFits(p, i)
    ensures p.o.sections[i].link < |p.o.sections| && p.n.sections[i].link < |p.n.sections|
    ensures SymbolCount(p.o, p.o.sections[i]) == SymbolCount(p.n, p.n.sections[i])
    ensures forall j :: 0 <= j < SymbolCount(p.o, p.o.sections[i]) ==>
      var x, y := SymbolAt(p.o, p.o.sections[i], j), SymbolAt(p.n, p.n.sections[i], j);
      (Checked(p, x, y) <==> SymbolVerified(p, i, j)) && (IsKernel(p, x) <==> Kernel(p, x))
  {
    hide SymbolAt, SymbolCount, Kernel, SymbolVerified, IsKernel, Checked, TextKept, SectionMove;
    forall j | 0 <= j < SymbolCount(p.o, p.o.sections[i])
      ensures var x, y := SymbolAt(p.o, p.o.sections[i], j), SymbolAt(p.n, p.n.sections[i], j);
        (Checked(p, x, y) <==> SymbolVerified(p, i, j)) && (IsKernel(p, x) <==> Kernel(p, x))
    {
      SymbolVerifiedIs(p, i, j);
    }
  }

  lemma {:induction false} KernelsOkIs(p: Pair, i: nat)
    requires p.Indexed() && TablesOk(p) && TextKept(p) && i < |p.o.sections|
    requires KernelTable(p.o) == Some(i) && TableFits(p, i)
    ensures KernelsOk(p) <==> KernelsFit(p, i)
  {
    hide SymbolAt, SymbolCount, Kernel, SymbolVerified, KernelTable, TablesOk, IsKernel, IsDescriptor, KernelOk;
    hide DescriptorOk, TextKept, TableFits;
    AllVerified(p, i);
  }

  lemma {:induction false} KernelsAre(p: Pair)
    requires p.Indexed() && TablesOk(p) && TablesFit(p) && TextKept(p)
    ensures KernelsOk(p) <==>
      exists i: nat :: i < |p.o.sections| && KernelTableAt(p.o, i) && TableFits(p, i) && KernelsFit(p, i)
  {
    hide *;
    if KernelTable(p.o).Some? {
      var i := KernelTable(p.o).value;
      KernelTableFound(p.o, i);
      FitsAt(p, i);
      KernelsOkIs(p, i);
    }
    forall i: nat | i < |p.o.sections| && KernelTableAt(p.o, i)
      ensures KernelTable(p.o) == Some(i)
    {
      KernelTableFound(p.o, i);
    }
    NoTable(p);
  }

  lemma FitsAt(p: Pair, i: nat)
    requires p.Indexed() && TablesFit(p) && i < |p.o.sections| && p.o.sections[i].IsSymbolTable()
    ensures TableFits(p, i)
  {
    hide TableFits;
  }

  lemma NoTable(p: Pair)
    requires p.Indexed() && TablesOk(p)
    ensures KernelsOk(p) ==> KernelTable(p.o).Some?
  {
    hide TablesOk, KernelTable, SymbolAt, SymbolCount, IsKernel, IsDescriptor, KernelOk, DescriptorOk;
  }

  // ---- the regions together ----

  /** What both directions know of the files before their bytes are compared. */
  ghost predicate Prepared(p: Pair)
    requires p.Indexed()
  {
    && p.u == p.t && |p.o.data| >= 64 && |p.n.data| >= 64 && RegionsFit(p)
    && p.Ot().offset == p.Nt().offset && p.Ot().addr == p.Nt().addr && p.Ot().kind != 8 && p.Nt().kind != 8
  }

  ghost predicate OldTextKept(p: Pair)
    requires p.Indexed()
  {
    forall k: nat :: p.Ot().offset <= k < p.OldEnd() && k < |p.o.data| && k < |p.n.data| ==>
      p.n.data[k] == p.o.data[k]
  }

  ghost predicate NewTailFilled(p: Pair)
    requires p.Indexed()
  {
    forall k: nat :: p.OldEnd() <= k < p.NewEnd() && k < |p.n.data| ==>
      p.n.data[k] == if (k - p.OldEnd()) % 4 < 2 then 0 else if (k - p.OldEnd()) % 4 == 2 then 0x9F else 0xBF
  }

  lemma {:induction false} PayloadsAre(p: Pair)
    requires p.Indexed() && Prepared(p)
    ensures p.OldEnd() <= |p.o.data| && p.NewEnd() <= |p.n.data|
    ensures Payload(p.o, p.Ot()) == p.o.data[p.Ot().offset..p.OldEnd()]
    ensures Payload(p.n, p.Nt()) == p.n.data[p.Nt().offset..p.NewEnd()]
  {
  }

  lemma {:induction false} FrontIs(p: Pair)
    requires p.Indexed() && Prepared(p) && p.n.phoff == p.o.phoff && p.n.phnum == p.o.phnum
    requires p.OldEnd() <= |p.n.data|
    ensures FrontFits(p) <==>
      HeaderSame(p.o.data, p.n.data) && HeadSame(p.o, p.n, p.OldEnd()) && OldTextKept(p)
  {
    HeaderBytesAre(p.o.data, p.n.data);
    HeadIs(p, p.OldEnd());
    hide HeaderSame, HeadSame;
  }

  lemma {:induction false} MiddleIs(p: Pair)
    requires p.Indexed() && Prepared(p) && p.Fo().offset <= |p.o.data| && p.Fn().offset <= |p.n.data|
    ensures MiddleFits(p) <==>
      GapsZero(p) && NewTailFilled(p)
  {
    GapIs(p.o.data, p.OldEnd(), p.Fo().offset);
    GapIs(p.n.data, p.NewEnd(), p.Fn().offset);
    hide AllZero, Slice;
  }

  /** The tail check is the sizes, the old .text and the code-end words. */
  lemma {:induction false} TailCheckIs(p: Pair)
    requires p.Indexed() && Prepared(p)
    ensures TailOk(Payload(p.o, p.Ot()), Payload(p.n, p.Nt()), p.Ot().size, p.Nt().size, p.Nt().addr) <==>
      TextFits(p) && OldTextKept(p) && NewTailFilled(p)
  {
    PayloadsAre(p);
    hide Payload, TailOk, CodeEndFrom;
    var was, now := p.o.data[p.Ot().offset..p.OldEnd()], p.n.data[p.Nt().offset..p.NewEnd()];
    TailIs(was, now, p.Ot().size, p.Nt().size, p.Nt().addr);
    if p.Ot().size <= p.Nt().size {
      TextBytesAre(p.o.data, p.n.data, p.Ot().offset, p.Ot().size, p.Nt().size);
    }
  }

  // ---- from the checks to the description ----

  lemma {:induction false} TextKinds(p: Pair)
    requires p.Indexed() && p.u == p.t && TextHeaderOk(p) && SectionOk(p, p.t)
    requires TailOk(Payload(p.o, p.Ot()), Payload(p.n, p.Nt()), p.Ot().size, p.Nt().size, p.Nt().addr)
    requires p.Nt().size == p.Ot().size + TailLength(p.Ot().size)
    ensures p.Ot().kind != 0 && p.Ot().kind != 8 && p.Nt().kind != 8
  {
    hide IsCodeEnd, Word, AlignBytes, FirstAlloc;
  }

  lemma {:induction false} PreparedOf(p: Pair)
    requires Accepted(p)
    ensures p.Indexed() && Prepared(p) && p.Ot().kind != 0 && p.OldEnd() <= |p.n.data|
    ensures p.n.phoff == p.o.phoff && p.n.phnum == p.o.phnum
  {
    hide *;
    SameText(p);
    Checks(p);
    TextGrows(p);
    SameLayout(p);
    CountsOf(p);
    SectionCheck(p, p.t);
    SectionCheck(p, p.f);
    TextKinds(p);
    OldTableAfterFirst(p);
    FirstBeforeTable(p);
    OldLayout(p);
    PreparedFrom(p);
  }

  lemma PreparedFrom(p: Pair)
    requires p.Indexed() && p.u == p.t && |p.o.data| >= 64 && |p.n.data| >= 64
    requires p.Ot().offset == p.Nt().offset && p.Ot().addr == p.Nt().addr && p.Ot().kind != 8 && p.Nt().kind != 8
    requires p.OldEnd() <= p.Fo().offset <= p.o.shoff <= |p.o.data|
    requires p.NewEnd() <= p.Fn().offset <= p.n.shoff && |p.n.data| == p.n.shoff + 64 * p.o.shnum
    requires p.n.shoff - p.o.shoff == p.FileShift() && p.Nt().size == p.Ot().size + TailLength(p.Ot().size)
    ensures Prepared(p) && p.OldEnd() <= |p.n.data|
  {
    hide TailLength;
  }

  lemma {:induction false} FilesConform(p: Pair)
    requires Accepted(p)
    ensures p.Indexed() && p.u == p.t && SoleText(p.o, p.t) && SoleText(p.n, p.t) && FirstAfter(p)
    ensures p.n.shoff % 8 == 0 && HeadersLast(p.o) && HeadersLast(p.n) && Placed(p)
  {
    hide *;
    SameText(p);
    Checks(p);
    RestChecks(p);
    TextIs(p.o, p.t);
    TextIs(p.n, p.u);
    FirstIs(p);
    TableAtEndIs(p.o);
    TableAtEndIs(p.n);
    PlacedIs(p);
  }

  lemma {:induction false} HeadersConform(p: Pair)
    requires Accepted(p)
    ensures p.Indexed() && Moved(p, p.AddrShift()) && SegmentsFit(p, p.AddrShift())
    ensures forall i: nat :: i < |p.o.sections| ==> HeaderFits(p, i, p.AddrShift())
  {
    hide *;
    SameText(p);
    Checks(p);
    PreparedOf(p);
    AllSections(p);
    ShiftMoves(p);
    SegmentsAre(p);
    forall i: nat | i < |p.o.sections|
      ensures HeaderFits(p, i, p.AddrShift())
    {
      HeaderIs(p, i);
    }
  }

  lemma {:induction false} SymbolsConform(p: Pair)
    requires Accepted(p)
    ensures p.Indexed() && MovesKnown(p) && TablesFit(p) && DynamicFits(p)
    ensures exists i: nat :: i < |p.o.sections| && KernelTableAt(p.o, i) && TableFits(p, i) && KernelsFit(p, i)
  {
    hide *;
    SameText(p);
    Checks(p);
    RestChecks(p);
    AllSections(p);
    KnowMoves(p);
    TablesAre(p);
    DynamicIs(p);
    PreparedOf(p);
    TailCheckIs(p);
    TextKeptIs(p);
    KernelsAre(p);
  }

  lemma {:induction false} TextKeptIs(p: Pair)
    requires p.Indexed() && Prepared(p) && TextFits(p) && OldTextKept(p)
    ensures TextKept(p)
  {
    PayloadsAre(p);
    hide Payload;
    TextBytesAre(p.o.data, p.n.data, p.Ot().offset, p.Ot().size, p.Nt().size);
    hide CodeEndFrom;
  }

  lemma {:induction false} BytesConform(p: Pair)
    requires Accepted(p)
    ensures p.Indexed() && TextFits(p) && RegionsFit(p) && FrontFits(p) && MiddleFits(p) && BackFits(p)
  {
    hide *;
    Checks(p);
    PreparedOf(p);
    TailCheckIs(p);
    RegionsOf(p);
    FrontIs(p);
    MiddleIs(p);
    SymbolsConform(p);
    AllSections(p);
    PostIs(p);
    BackIs(p);
  }

  lemma RegionsOf(p: Pair)
    requires p.Indexed() && Prepared(p)
    ensures RegionsFit(p) && p.Fo().offset <= p.o.shoff <= |p.o.data| && p.Fn().offset <= p.n.shoff <= |p.n.data|
    ensures p.n.shoff - p.o.shoff == p.Fn().offset - p.Fo().offset
  {
  }

  lemma BackIs(p: Pair)
    requires p.Indexed() && RegionsFit(p)
    ensures BackFits(p) <==>
      forall k: nat :: p.Fo().offset <= k < p.o.shoff && !InMovedValue(p, k) ==>
        p.o.data[k] == p.n.data[k + (p.n.shoff - p.o.shoff)]
  {
    hide InMovedValue;
  }

  /** What the checker accepts conforms. */
  lemma {:induction false} AcceptedConforms(p: Pair)
    requires Accepted(p)
    ensures Conforms(p)
  {
    FilesConform(p);
    HeadersConform(p);
    SymbolsConform(p);
    BytesConform(p);
    var d := p.AddrShift();
    hide *;
    Assemble(p, d);
  }

  lemma Assemble(p: Pair, d: int)
    requires p.Indexed() && p.u == p.t && SoleText(p.o, p.t) && SoleText(p.n, p.t) && FirstAfter(p)
    requires p.n.shoff % 8 == 0 && HeadersLast(p.o) && HeadersLast(p.n) && TextFits(p) && Placed(p)
    requires RegionsFit(p) && FrontFits(p) && MiddleFits(p) && BackFits(p)
    requires Moved(p, d) && (forall i: nat :: i < |p.o.sections| ==> HeaderFits(p, i, d)) && SegmentsFit(p, d)
    requires TablesFit(p) && DynamicFits(p)
    requires exists i: nat :: i < |p.o.sections| && KernelTableAt(p.o, i) && TableFits(p, i) && KernelsFit(p, i)
    ensures Conforms(p)
  {
    hide SoleText, FirstAfter, HeadersLast, TextFits, Placed, RegionsFit, FrontFits, MiddleFits, BackFits, Moved;
    hide HeaderFits, SegmentsFit, TablesFit, DynamicFits, KernelTableAt, KernelsFit;
  }

  // ---- from the description to the checks ----

  /** The parts of a conforming pair, with the distance that addresses move. */
  lemma {:induction false} Disassemble(p: Pair) returns (d: int)
    requires Conforms(p)
    ensures p.Indexed() && p.u == p.t && SoleText(p.o, p.t) && SoleText(p.n, p.t) && FirstAfter(p)
    ensures p.n.shoff % 8 == 0 && HeadersLast(p.o) && HeadersLast(p.n) && TextFits(p) && Placed(p)
    ensures RegionsFit(p) && FrontFits(p) && MiddleFits(p) && BackFits(p)
    ensures Moved(p, d) && (forall i: nat :: i < |p.o.sections| ==> HeaderFits(p, i, d)) && SegmentsFit(p, d)
    ensures TablesFit(p) && DynamicFits(p)
    ensures exists i: nat :: i < |p.o.sections| && KernelTableAt(p.o, i) && TableFits(p, i) && KernelsFit(p, i)
  {
    hide SoleText, FirstAfter, HeadersLast, TextFits, Placed, RegionsFit, FrontFits, MiddleFits, BackFits, Moved;
    hide HeaderFits, SegmentsFit, TablesFit, DynamicFits, KernelTableAt, KernelsFit;
    d :| Moved(p, d) && (forall i: nat :: i < |p.o.sections| ==> HeaderFits(p, i, d)) && SegmentsFit(p, d);
  }

  lemma {:induction false} TextHeaderFrom(p: Pair, d: int)
    requires p.Indexed() && p.u == p.t && HeaderFits(p, p.t, d) && TextFits(p) && RegionsFit(p)
    requires |p.o.data| >= 64 && |p.n.data| >= 64
    ensures TextHeaderOk(p) && p.Ot().kind != 0 && Prepared(p) && p.OldEnd() <= |p.n.data|
  {
  }

  lemma ParsedSize(e: Elf)
    requires WellParsed(e)
    ensures |e.data| >= 64
  {
    hide U, ParsePhdrs, ParseSections, SectionInFile;
  }

  /** Headers and placement of a conforming pair pass. */
  lemma {:induction false} HeadersPass(p: Pair, d: int)
    requires WellParsed(p.o) && WellParsed(p.n) && p.Indexed() && p.u == p.t && TextFits(p) && RegionsFit(p)
    requires Moved(p, d) && (forall i: nat :: i < |p.o.sections| ==> HeaderFits(p, i, d)) && SegmentsFit(p, d)
    ensures TextHeaderOk(p) && Prepared(p) && p.OldEnd() <= |p.n.data|
    ensures PhdrsOk(p) && forall i :: 0 <= i < |p.o.sections| ==> SectionOk(p, i)
  {
    hide *;
    ParsedSize(p.o);
    ParsedSize(p.n);
    CountsOf(p);
    TextHeaderFrom(p, d);
    MovedIs(p, d);
    SegmentsAre(p);
    forall i | 0 <= i < |p.o.sections|
      ensures SectionOk(p, i)
    {
      HeaderIs(p, i);
    }
  }

  lemma {:induction false} HeaderFrom(p: Pair)
    requires p.Indexed() && Prepared(p) && FrontFits(p)
    ensures HeaderSame(p.o.data, p.n.data)
  {
    HeaderBytesAre(p.o.data, p.n.data);
    hide HeaderSame;
  }

  /** So do the bytes and the symbols. */
  lemma {:induction false} BytesPass(p: Pair)
    requires WellParsed(p.o) && WellParsed(p.n) && p.Indexed() && Prepared(p) && p.OldEnd() <= |p.n.data|
    requires TextHeaderOk(p) && p.u == p.t && HeadersLast(p.n)
    requires forall i :: 0 <= i < |p.o.sections| ==> SectionOk(p, i)
    requires TextFits(p) && RegionsFit(p) && FrontFits(p) && MiddleFits(p) && BackFits(p) && TablesFit(p)
    ensures HeaderSame(p.o.data, p.n.data) && HeadSame(p.o, p.n, p.OldEnd())
    ensures GapsZero(p) && TablesOk(p) && PostSame(p)
    ensures TailOk(Payload(p.o, p.Ot()), Payload(p.n, p.Nt()), p.Ot().size, p.Nt().size, p.Nt().addr)
    ensures p.n.shoff - p.o.shoff == p.FileShift() && TextKept(p)
  {
    hide *;
    HeaderFrom(p);
    TableAtEndIs(p.n);
    SameLayout(p);
    RegionsOf(p);
    FrontIs(p);
    MiddleIs(p);
    TailCheckIs(p);
    TextKeptIs(p);
    KnowMoves(p);
    TablesAre(p);
    PostIs(p);
    BackIs(p);
    ShiftIs(p);
  }

  lemma ShiftIs(p: Pair)
    requires p.Indexed()
    ensures p.FileShift() == p.Fn().offset - p.Fo().offset
  {
  }

  lemma FilesPass(p: Pair)
    requires p.Indexed() && p.u == p.t && SoleText(p.o, p.t) && SoleText(p.n, p.t) && FirstAfter(p)
    requires HeadersLast(p.o) && HeadersLast(p.n) && Placed(p)
    ensures OnlyText(p.o, p.t) && OnlyText(p.n, p.u) && IsFirst(p.o, p.t, p.f)
    ensures TableAtEnd(p.o) && TableAtEnd(p.n) && PlacementOk(p)
  {
    hide *;
    TextIs(p.o, p.t);
    TextIs(p.n, p.u);
    FirstIs(p);
    TableAtEndIs(p.o);
    TableAtEndIs(p.n);
    PlacedIs(p);
  }

  /** What conforms is accepted. */
  lemma {:induction false} ConformingPasses(p: Pair)
    requires WellParsed(p.o) && WellParsed(p.n) && Conforms(p)
    ensures Passes(p)
  {
    hide *;
    var d := Disassemble(p);
    FilesPass(p);
    HeadersPass(p, d);
    BytesPass(p);
    DynamicIs(p);
    KernelsAre(p);
    PassesFrom(p);
  }

  lemma PassesFrom(p: Pair)
    requires p.Indexed() && OnlyText(p.o, p.t) && OnlyText(p.n, p.u) && IsFirst(p.o, p.t, p.f)
    requires HeaderSame(p.o.data, p.n.data) && p.n.shoff % 8 == 0
    requires TextHeaderOk(p) && PlacementOk(p) && PhdrsOk(p) && forall i :: 0 <= i < |p.o.sections| ==> SectionOk(p, i)
    requires TableAtEnd(p.o) && TableAtEnd(p.n) && HeadSame(p.o, p.n, p.OldEnd())
    requires TailOk(Payload(p.o, p.Ot()), Payload(p.n, p.Nt()), p.Ot().size, p.Nt().size, p.Nt().addr)
    requires GapsZero(p) && TablesOk(p) && PostSame(p) && p.n.shoff - p.o.shoff == p.FileShift()
    requires forall i :: 0 <= i < |p.o.sections| && p.o.sections[i].IsSymbolTable() ==> DynamicOk(p, i)
    requires KernelsOk(p)
    ensures Passes(p)
  {
    hide OnlyText, HeaderSame, TextHeaderOk, PlacementOk, PhdrsOk, TableAtEnd, HeadSame, TailOk, GapsZero, TablesOk;
    hide PostSame, SectionOk, KernelsOk, DynamicOk, PostFile;
  }

  lemma {:induction false} AcceptsForward(o: Elf, n: Elf) returns (t: nat, f: nat)
    requires WellParsed(o) && WellParsed(n) && Accepts(o, n)
    ensures Conforms(Pair(o, n, t, t, f))
  {
    hide WellParsed, Passes, Conforms;
    var p: Pair :| p.o == o && p.n == n && Passes(p);
    assert Accepted(p);
    t, f := p.t, p.f;
    AcceptedConforms(p);
    assert p.u == p.t by { SameText(p); }
    assert p == Pair(o, n, t, t, f);
  }

  lemma {:induction false} AcceptsBackward(o: Elf, n: Elf, t: nat, f: nat)
    requires WellParsed(o) && WellParsed(n) && Conforms(Pair(o, n, t, t, f))
    ensures Accepts(o, n)
  {
    hide WellParsed, Passes, Conforms;
    var p := Pair(o, n, t, t, f);
    ConformingPasses(p);
    assert p.o == o && p.n == n;
  }

  /** The checker accepts two parsed files if and only if NEW is OLD with a code-end tail and what that forces, as
      described on their bytes and fields. */
  lemma {:induction false} AcceptsExactly(old': Bytes, new': Bytes)
    requires ParseElf(old').Some? && ParseElf(new').Some?
    ensures var o, n := ParseElf(old').value, ParseElf(new').value;
      Accepts(o, n) <==> exists t: nat, f: nat :: Conforms(Pair(o, n, t, t, f))
  {
    var o, n := ParseElf(old').value, ParseElf(new').value;
    hide *;
    if Accepts(o, n) {
      var t, f := AcceptsForward(o, n);
    }
    if t: nat, f: nat :| Conforms(Pair(o, n, t, t, f)) {
      AcceptsBackward(o, n, t, f);
    }
  }
}
