/** compare_elf of scripts/check-pm-code-end.py as it runs: loops over sections, program headers
    and symbols that append to an error list, and masked byte comparisons. */
module CodeEndCheck {
  import opened Wrappers
  import opened Bytes
  import opened ElfFormat
  import opened CodeEnd

  datatype Error =
    | HeaderDiffers | TableUnaligned | SectionCount | TextMoved | OverlapsText(section: nat) | NoLaterSection
    | SectionChanged(section: nat) | Misplaced | PhdrCount | PhdrChanged(phdr: nat) | LoadBroken(phdr: nat)
      | TextNotCovered
    | TableNotAtEnd | HeadChanged | BadTail | GapNotZero | SymbolCountChanged(section: nat)
      | SymbolChanged(section: nat, symbol: nat)
    | LaterBytesChanged | TableShift | DynamicMoved(section: nat) | NoSymbolTable | KernelChanged(symbol: nat)
      | NoKernels

  /** Raised: the script stops with an exception; otherwise the collected errors. */
  datatype Outcome = Raised | Report(errors: seq<Error>)

  type Mask = (int, int)

  predicate InMasks(masks: seq<Mask>, pos: int) {
    exists m :: 0 <= m < |masks| && masks[m].0 <= pos < masks[m].1
  }

  /** masked: a copy with every masked byte zeroed; base is the position of the first byte. */
  method Masked(data: Bytes, base: nat, masks: seq<Mask>) returns (r: Bytes)
    ensures |r| == |data|
    ensures forall k :: 0 <= k < |data| ==> r[k] == if InMasks(masks, base + k) then 0 else data[k]
  {
    var out := new byte[|data|](i requires 0 <= i < |data| => data[i]);
    for m := 0 to |masks|
      invariant forall k :: 0 <= k < |data| ==> out[k] == if InMasks(masks[..m], base + k) then 0 else data[k]
    {
      var lo := if masks[m].0 - base > 0 then masks[m].0 - base else 0;
      var hi := if masks[m].1 - base < |data| then masks[m].1 - base else |data|;
      ghost var before := out[..];
      if lo < hi {
        forall k | lo <= k < hi {
          out[k] := 0;
        }
      }
      forall k | 0 <= k < |data|
        ensures out[k] == if InMasks(masks[..m + 1], base + k) then 0 else data[k]
      {
        OneMoreMask(masks, m, base + k);
        assert before[k] == if InMasks(masks[..m], base + k) then 0 else data[k];
      }
    }
    assert masks[..|masks|] == masks;
    r := out[..];
  }

  lemma OneMoreMask(masks: seq<Mask>, m: nat, pos: int)
    requires m < |masks|
    ensures InMasks(masks[..m + 1], pos) <==> InMasks(masks[..m], pos) || masks[m].0 <= pos < masks[m].1
  {
    var all, some := masks[..m + 1], masks[..m];
    if InMasks(some, pos) {
      var i :| 0 <= i < |some| && some[i].0 <= pos < some[i].1;
      assert all[i] == some[i];
    }
    if masks[m].0 <= pos < masks[m].1 {
      assert all[m] == masks[m];
    }
    if InMasks(all, pos) && !(masks[m].0 <= pos < masks[m].1) {
      var i :| 0 <= i < |all| && all[i].0 <= pos < all[i].1;
      assert some[i] == all[i];
    }
  }

  /** compare_region: equal length and equal bytes after masking. */
  method CompareRegion(a: Bytes, b: Bytes, aBase: nat, bBase: nat, aMasks: seq<Mask>, bMasks: seq<Mask>)
    returns (same: bool)
    ensures same <==> |a| == |b| && forall k :: 0 <= k < |a| ==>
      (if InMasks(aMasks, aBase + k) then 0 else a[k]) == (if InMasks(bMasks, bBase + k) then 0 else b[k])
  {
    if |a| != |b| {
      return false;
    }
    var x := Masked(a, aBase, aMasks);
    var y := Masked(b, bBase, bMasks);
    same := x == y;
    if !same {
      var k :| 0 <= k < |x| && x[k] != y[k];
    }
  }

  // ---- sections ----

  method FindText(e: Elf) returns (t: Option<nat>)
    ensures t.Some? ==> OnlyText(e, t.value)
    ensures t.None? ==> forall i :: !OnlyText(e, i)
  {
    hide IsText;
    var found: seq<nat> := [];
    for i := 0 to |e.sections|
      invariant forall k :: 0 <= k < |found| ==> found[k] < i && IsText(e, e.sections[found[k]])
      invariant forall k :: 0 <= k < i && IsText(e, e.sections[k]) ==> k in found
      invariant forall j, k :: 0 <= j < k < |found| ==> found[j] < found[k]
    {
      if IsText(e, e.sections[i]) {
        found := found + [i];
      }
    }
    if |found| != 1 {
      assert |found| >= 2 ==>
        found[0] != found[1] && IsText(e, e.sections[found[0]])
        && IsText(e, e.sections[found[1]]);
      return None;
    }
    t := Some(found[0]);
  }

  method FindFirst(o: Elf, t: nat) returns (f: Option<nat>)
    requires t < |o.sections|
    ensures f.Some? ==> IsFirst(o, t, f.value)
    ensures f.None? ==> forall i :: !IsFirst(o, t, i)
  {
    hide PostFile;
    f := None;
    for i := 0 to |o.sections|
      invariant f.None? ==> forall k :: 0 <= k < i ==> !PostFile(o, t, k)
      invariant f.Some? ==> f.value < i && PostFile(o, t, f.value) && forall k :: 0 <= k < i && PostFile(o, t, k) ==>
        o.sections[f.value].offset <= o.sections[k].offset
          && (k < f.value ==> o.sections[f.value].offset < o.sections[k].offset)
    {
      if PostFile(o, t, i) && (f.None? || o.sections[i].offset < o.sections[f.value].offset) {
        f := Some(i);
      }
    }
  }

  method CheckOverlap(o: Elf, t: nat) returns (errors: seq<Error>)
    requires t < |o.sections|
    ensures errors == [] <==> forall i :: 0 <= i < |o.sections| ==> ClassOf(o, t, i) != Overlap
  {
    hide ClassOf;
    errors := [];
    for i := 0 to |o.sections|
      invariant errors == [] <==> forall k :: 0 <= k < i ==> ClassOf(o, t, k) != Overlap
    {
      if ClassOf(o, t, i) == Overlap {
        errors := errors + [OverlapsText(i)];
      }
    }
  }

  /** Both shifts: of the first file-resident section after .text, and of the first allocated one. */
  method FindShifts(p: Pair) returns (fileShift: int, addrShift: int)
    requires p.Indexed()
    ensures fileShift == p.FileShift() && addrShift == p.AddrShift()
  {
    hide PostAlloc;
    fileShift, addrShift := p.Fn().offset - p.Fo().offset, 0;
    var i := 0;
    while i < |p.o.sections|
      invariant 0 <= i <= |p.o.sections| && FirstAlloc(p.o, p.t, i) == FirstAlloc(p.o, p.t, 0)
    {
      if PostAlloc(p.o, p.t, i) {
        addrShift := p.n.sections[i].addr - p.o.sections[i].addr;
        return;
      }
      i := i + 1;
    }
  }

  /** A section after .text: uniform shifts, padding that still ends on a page, and otherwise its size. */
  method CheckPost(s: Section, n: Section, i: nat, fileShift: int, addrShift: int) returns (errors: seq<Error>)
    ensures errors == [] <==> PostOk(s, n, fileShift, addrShift)
  {
    errors := [];
    if n.offset - s.offset != fileShift {
      errors := errors + [SectionChanged(i)];
    }
    if s.Alloc() {
      if n.addr - s.addr != addrShift {
        errors := errors + [SectionChanged(i)];
      }
    } else if s.addr != n.addr {
      errors := errors + [SectionChanged(i)];
    }
    if s.Nobits() {
      if (n.addr + n.size) % PAGE != 0 && (s.addr + s.size) % PAGE == 0 {
        errors := errors + [SectionChanged(i)];
      }
      if n.size >= PAGE {
        errors := errors + [SectionChanged(i)];
      }
    } else if s.size != n.size {
      errors := errors + [SectionChanged(i)];
    }
  }

  method CheckSection(p: Pair, i: nat, fileShift: int, addrShift: int) returns (errors: seq<Error>)
    requires p.Indexed() && i < |p.o.sections| && fileShift == p.FileShift() && addrShift == p.AddrShift()
    requires ClassOf(p.o, p.t, i) != Overlap
    ensures errors == [] <==> SectionOk(p, i)
  {
    hide ClassOf, FirstAlloc, PostOk;
    var s, n := p.o.sections[i], p.n.sections[i];
    errors := [];
    if (s.nameIdx, s.kind, s.flags, s.link, s.info, s.align, s.entsize)
       != (n.nameIdx, n.kind, n.flags, n.link, n.info, n.align, n.entsize) {
      errors := errors + [SectionChanged(i)];
    }
    match ClassOf(p.o, p.t, i)
    case Null =>
      if s != n {
        errors := errors + [SectionChanged(i)];
      }
    case Pre =>
      if (s.addr, s.offset, s.size) != (n.addr, n.offset, n.size) {
        errors := errors + [SectionChanged(i)];
      }
    case Post =>
      var post := CheckPost(s, n, i, fileShift, addrShift);
      errors := errors + post;
    case _ =>
  }

  /** The loop over sections, run once no section overlaps .text; also the padding totals. */
  method CheckSections(p: Pair, fileShift: int, addrShift: int)
    returns (errors: seq<Error>, relroOld: nat, relroNew: nat)
    requires p.Indexed() && fileShift == p.FileShift() && addrShift == p.AddrShift()
    requires forall i :: 0 <= i < |p.o.sections| ==> ClassOf(p.o, p.t, i) != Overlap
    ensures errors == [] <==> SectionsOk(p)
    ensures relroOld == Relro(p.o, p.t, p.o, |p.o.sections|) && relroNew == Relro(p.o, p.t, p.n, |p.o.sections|)
  {
    hide ClassOf, SectionOk, FirstAlloc;
    errors, relroOld, relroNew := [], 0, 0;
    for i := 0 to |p.o.sections|
      invariant errors == [] <==> forall k :: 0 <= k < i ==> SectionOk(p, k)
      invariant relroOld == Relro(p.o, p.t, p.o, i) && relroNew == Relro(p.o, p.t, p.n, i)
    {
      var more := CheckSection(p, i, fileShift, addrShift);
      errors := errors + more;
      if ClassOf(p.o, p.t, i) == Post && p.o.sections[i].Nobits() {
        relroOld := relroOld + p.o.sections[i].size;
        relroNew := relroNew + p.n.sections[i].size;
      }
    }
  }

  method CheckText(p: Pair) returns (errors: seq<Error>)
    requires p.Indexed()
    ensures errors == [] <==> TextHeaderOk(p)
  {
    var ot, nt := p.Ot(), p.Nt();
    errors := [];
    if ot.offset != nt.offset || ot.addr != nt.addr {
      errors := errors + [TextMoved];
    }
    if (ot.nameIdx, ot.kind, ot.flags) != (nt.nameIdx, nt.kind, nt.flags)
       || (ot.link, ot.info, ot.align, ot.entsize) != (nt.link, nt.info, nt.align, nt.entsize) {
      errors := errors + [TextMoved];
    }
  }

  /** Where the first section after the grown .text must be, if OLD followed the segment-start rule. */
  method CheckPlacement(p: Pair) returns (errors: seq<Error>)
    requires p.Indexed()
    ensures errors == [] <==> PlacementOk(p)
  {
    hide SegmentStart, AlignSkew;
    var ot, nt, fo, fn := p.Ot(), p.Nt(), p.Fo(), p.Fn();
    errors := [];
    if fo.Alloc() {
      var wantOld := SegmentStart(ot.addr + ot.size, fo.align);
      if fo.addr == wantOld {
        var wantNew := SegmentStart(ot.addr + nt.size, fo.align);
        if fn.addr != wantNew {
          errors := errors + [Misplaced];
        }
        var wantOffset := AlignSkew(nt.offset + nt.size, fn.addr);
        if fn.offset != wantOffset {
          errors := errors + [Misplaced];
        }
      }
    }
    if fn.offset < nt.offset + nt.size {
      errors := errors + [Misplaced];
    }
  }

  /** The fields a program header of NEW must have, given OLD's: a list the branches overwrite. */
  method ExpectedPhdr(p: Pair, h: Phdr, addrShift: int, relroOld: nat, relroNew: nat) returns (exp: seq<int>)
    requires p.Indexed() && addrShift == p.AddrShift()
    requires relroOld == Relro(p.o, p.t, p.o, |p.o.sections|) && relroNew == Relro(p.o, p.t, p.n, |p.o.sections|)
    ensures |exp| == 8 && forall q: Phdr :: PhdrOk(p, h, q) <==> FieldsOf(q) == exp
  {
    hide FirstAlloc, Relro;
    var ot, nt, fo, fn := p.Ot(), p.Nt(), p.Fo(), p.Fn();
    exp := FieldsOf(h);
    if h.offset == ot.offset && h.vaddr == ot.addr && h.filesz == ot.size {
      exp := exp[5 := nt.size + (h.memsz - h.filesz)][6 := nt.size + (h.memsz - h.filesz)];
    } else if h.offset == fo.offset && (!fo.Alloc() || h.vaddr == fo.addr) {
      exp := exp[2 := fn.offset as int][3 := h.vaddr + addrShift][4 := h.paddr + addrShift];
      if h.memsz - h.filesz == relroOld && (h.kind == PT_LOAD || h.kind == PT_GNU_RELRO) {
        exp := exp[6 := h.filesz + relroNew];
      }
    }
    forall q: Phdr
      ensures PhdrOk(p, h, q) <==> FieldsOf(q) == exp
    {
      FieldsEqual(q, exp);
    }
  }

  function FieldsOf(h: Phdr): (f: seq<int>)
    ensures |f| == 8
  {
    [h.kind, h.flags, h.offset, h.vaddr, h.paddr, h.filesz, h.memsz, h.align]
  }

  lemma FieldsEqual(q: Phdr, exp: seq<int>)
    requires |exp| == 8
    ensures FieldsOf(q) == exp <==>
      && q.kind == exp[0] && q.flags == exp[1] && q.offset == exp[2] && q.vaddr == exp[3]
      && q.paddr == exp[4] && q.filesz == exp[5] && q.memsz == exp[6] && q.align == exp[7]
  {
  }

  method CheckPhdrs(p: Pair, addrShift: int, relroOld: nat, relroNew: nat) returns (errors: seq<Error>)
    requires p.Indexed() && addrShift == p.AddrShift()
    requires relroOld == Relro(p.o, p.t, p.o, |p.o.sections|) && relroNew == Relro(p.o, p.t, p.n, |p.o.sections|)
    ensures errors == [] <==> PhdrsOk(p)
  {
    hide PhdrOk, LoadOk, CoversText, FirstAlloc, Relro;
    errors := [];
    if |p.o.phdrs| != |p.n.phdrs| {
      return [PhdrCount];
    }
    for i := 0 to |p.o.phdrs|
      invariant errors == [] <==> forall k :: 0 <= k < i ==> PhdrOk(p, p.o.phdrs[k], p.n.phdrs[k])
    {
      var exp := ExpectedPhdr(p, p.o.phdrs[i], addrShift, relroOld, relroNew);
      if FieldsOf(p.n.phdrs[i]) != exp {
        errors := errors + [PhdrChanged(i)];
      }
    }
    var loads, covered := CheckLoads(p.n.phdrs, p.Nt());
    errors := errors + loads;
    if !covered {
      errors := errors + [TextNotCovered];
    }
  }

  method CheckLoads(phdrs: seq<Phdr>, nt: Section) returns (errors: seq<Error>, covered: bool)
    ensures errors == [] <==> forall k :: 0 <= k < |phdrs| ==> LoadOk(phdrs[k])
    ensures covered <==> exists k :: 0 <= k < |phdrs| && CoversText(phdrs[k], nt)
  {
    errors, covered := [], false;
    for i := 0 to |phdrs|
      invariant errors == [] <==> forall k :: 0 <= k < i ==> LoadOk(phdrs[k])
      invariant covered <==> exists k :: 0 <= k < i && CoversText(phdrs[k], nt)
    {
      var q := phdrs[i];
      ghost var ok := LoadOk(q);
      var congruent := q.kind == PT_LOAD && q.align > 1 ==> q.offset % q.align == q.vaddr % q.align;
      var fits := q.kind == PT_LOAD ==> q.filesz <= q.memsz;
      assert ok <==> congruent && fits;
      hide LoadOk;
      if !congruent {
        errors := errors + [LoadBroken(i)];
      }
      if !fits {
        errors := errors + [LoadBroken(i)];
      }
      if q.kind == PT_LOAD && q.flags % 2 == 1 && q.vaddr <= nt.addr && nt.addr + nt.size <= q.vaddr + q.memsz {
        covered := true;
      }
    }
  }

  method CheckTable(e: Elf) returns (errors: seq<Error>)
    ensures errors == [] <==> TableAtEnd(e)
  {
    var last: nat := 0;
    for i := 0 to |e.sections|
      invariant forall k :: 0 <= k < i && !e.sections[k].Nobits() ==> e.sections[k].offset + e.sections[k].size <= last
      invariant last > 0 ==> exists k ::
        0 <= k < i && !e.sections[k].Nobits()
        && e.sections[k].offset + e.sections[k].size == last
    {
      if !e.sections[i].Nobits() && e.sections[i].offset + e.sections[i].size > last {
        last := e.sections[i].offset + e.sections[i].size;
      }
    }
    errors := [];
    if e.shoff < last {
      errors := [TableNotAtEnd];
    }
    if |e.data| != e.shoff + 64 * e.shnum {
      errors := errors + [TableNotAtEnd];
    }
  }

  method CheckHead(o: Elf, n: Elf, end: nat) returns (same: bool)
    ensures same <==> HeadSame(o, n, end)
  {
    var oMasks: seq<Mask>, nMasks: seq<Mask> :=
      [(0x28, 0x30), (o.phoff, o.phoff + 56 * o.phnum)], [(0x28, 0x30), (n.phoff, n.phoff + 56 * n.phnum)];
    var a, b := Slice(o.data, 0, end), Slice(n.data, 0, end);
    same := CompareRegion(a, b, 0, 0, oMasks, nMasks);
    HeadMasks(o);
    HeadMasks(n);
    assert forall k :: 0 <= k < |a| ==> HeadByte(o, k) == if InMasks(oMasks, 0 + k) then 0 else a[k];
    assert forall k :: 0 <= k < |b| ==> HeadByte(n, k) == if InMasks(nMasks, 0 + k) then 0 else b[k];
  }

  lemma HeadMasks(e: Elf)
    ensures forall k :: InMasks([(0x28, 0x30), (e.phoff, e.phoff + 56 * e.phnum)], k) <==> HeadMask(e, k)
  {
    var masks: seq<Mask> := [(0x28, 0x30), (e.phoff, e.phoff + 56 * e.phnum)];
    forall k
      ensures InMasks(masks, k) <==> HeadMask(e, k)
    {
      if 0x28 <= k < 0x30 {
        assert masks[0].0 <= k < masks[0].1;
      }
      if e.phoff <= k < e.phoff + 56 * e.phnum {
        assert masks[1].0 <= k < masks[1].1;
      }
    }
  }

  method CheckTail(was: Bytes, now: Bytes, oldSize: nat, newSize: nat, newAddr: nat) returns (errors: seq<Error>)
    ensures errors == [] <==> TailOk(was, now, oldSize, newSize, newAddr)
  {
    hide AlignBytes, IsCodeEnd, Word;
    errors := [];
    if newSize < oldSize || |now| < |was| || now[..|was|] != was {
      return [BadTail];
    }
    var tail := |now| - |was|;
    if tail != TailLength(oldSize) || AlignBytes(oldSize) % 4 != 0 {
      return [BadTail];
    }
    if newSize % 128 != 0 || (newAddr + newSize) % 128 != 0 {
      errors := [BadTail];
    }
    ghost var aligned := errors == [];
    for w := 0 to tail / 4
      invariant errors == [] <==> aligned && forall k :: 0 <= k < w ==> IsCodeEnd(Word(now, |was|, k))
    {
      if !IsCodeEnd(Word(now, |was|, w)) {
        errors := errors + [BadTail];
      }
    }
  }

  method CheckZero(b: Bytes) returns (zero: bool)
    ensures zero <==> AllZero(b)
  {
    for i := 0 to |b|
      invariant forall k :: 0 <= k < i ==> b[k] == 0
    {
      if b[i] != 0 {
        return false;
      }
    }
    zero := true;
  }

  // ---- symbols ----

  /** The moving symbols among tables before i, and of table i those before j, cover pos. */
  ghost predicate MaskedSoFar(p: Pair, e: Elf, pos: int, i: nat, j: nat)
    requires p.Indexed() && |e.sections| == |p.o.sections|
  {
    exists a: nat, b: nat :: Moves(p, a, b) && (a < i || (a == i && b < j))
      && ValueField(e, a, b) <= pos < ValueField(e, a, b) + 8
  }

  ghost predicate MasksAre(p: Pair, e: Elf, masks: seq<Mask>, i: nat, j: nat)
    requires p.Indexed() && |e.sections| == |p.o.sections|
  {
    forall pos :: InMasks(masks, pos) <==> MaskedSoFar(p, e, pos, i, j)
  }

  lemma {:induction false} MaskMore(p: Pair, e: Elf, masks: seq<Mask>, i: nat, j: nat)
    requires p.Indexed() && |e.sections| == |p.o.sections| && i < |e.sections| && MasksAre(p, e, masks, i, j)
    ensures Moves(p, i, j) ==> MasksAre(p, e, masks + [(ValueField(e, i, j), ValueField(e, i, j) + 8)], i, j + 1)
    ensures !Moves(p, i, j) ==> MasksAre(p, e, masks, i, j + 1)
  {
    hide Moves;
    var v := ValueField(e, i, j);
    var more: seq<Mask> := masks + [(v, v + 8)];
    assert more[..|masks|] == masks && more[..|masks| + 1] == more;
    forall pos
      ensures Moves(p, i, j) ==> (InMasks(more, pos) <==> MaskedSoFar(p, e, pos, i, j + 1))
      ensures !Moves(p, i, j) ==> (InMasks(masks, pos) <==> MaskedSoFar(p, e, pos, i, j + 1))
    {
      OneMoreMask(more, |masks|, pos);
      assert InMasks(masks, pos) <==> MaskedSoFar(p, e, pos, i, j);
      SoFarStep(p, e, pos, i, j);
    }
  }

  lemma {:induction false} SoFarStep(p: Pair, e: Elf, pos: int, i: nat, j: nat)
    requires p.Indexed() && |e.sections| == |p.o.sections| && i < |e.sections|
    ensures MaskedSoFar(p, e, pos, i, j + 1)
       <==> MaskedSoFar(p, e, pos, i, j) || (Moves(p, i, j) && ValueField(e, i, j) <= pos < ValueField(e, i, j) + 8)
  {
    hide Moves;
    if MaskedSoFar(p, e, pos, i, j) {
      var a: nat, b: nat :| Moves(p, a, b) && (a < i || (a == i && b < j))
        && ValueField(e, a, b) <= pos < ValueField(e, a, b) + 8;
      assert a < i || (a == i && b < j + 1);
    }
  }

  /** Finished tables: all symbols of table i counted, or table i is no table after .text. */
  lemma {:induction false} NextTable(p: Pair, e: Elf, masks: seq<Mask>, i: nat, j: nat)
    requires p.Indexed() && |e.sections| == |p.o.sections| && MasksAre(p, e, masks, i, j)
    requires forall b: nat :: Moves(p, i, b) ==> b < j
    ensures MasksAre(p, e, masks, i + 1, 0)
  {
    hide Moves;
    forall pos
      ensures MaskedSoFar(p, e, pos, i + 1, 0) <==> MaskedSoFar(p, e, pos, i, j)
    {
      if MaskedSoFar(p, e, pos, i, j) {
        var a: nat, b: nat :| Moves(p, a, b) && (a < i || (a == i && b < j))
          && ValueField(e, a, b) <= pos < ValueField(e, a, b) + 8;
        assert a < i + 1;
      }
      if MaskedSoFar(p, e, pos, i + 1, 0) {
        var a: nat, b: nat :| Moves(p, a, b) && a < i + 1 && ValueField(e, a, b) <= pos < ValueField(e, a, b) + 8;
        assert a < i || (a == i && b < j);
      }
    }
  }

  lemma {:induction false} AllMasks(p: Pair, e: Elf, masks: seq<Mask>)
    requires p.Indexed() && |e.sections| == |p.o.sections| && MasksAre(p, e, masks, |p.o.sections|, 0)
    ensures forall pos :: InMasks(masks, pos) <==> SymbolMask(p, e, pos)
  {
    hide Moves;
    forall pos
      ensures MaskedSoFar(p, e, pos, |p.o.sections|, 0) <==> SymbolMask(p, e, pos)
    {
      if SymbolMask(p, e, pos) {
        var a: nat, b: nat :| Moves(p, a, b) && ValueField(e, a, b) <= pos < ValueField(e, a, b) + 8;
        assert a < |p.o.sections|;
      }
    }
  }

  /** One symbol: the copied fields, then the value against the section's address shift. */
  method CheckSymbol(p: Pair, a: Symbol, b: Symbol, i: nat, j: nat) returns (errors: seq<Error>)
    requires p.Indexed()
    ensures errors == [] <==> SymbolOk(p, a, b)
  {
    hide ClassOf;
    if (a.name, a.info, a.other, a.shndx, a.size) != (b.name, b.info, b.other, b.shndx, b.size) {
      return [SymbolChanged(i, j)];
    }
    var delta := 0;
    if a.shndx < SHN_LORESERVE && a.shndx < |p.o.sections| && PostAlloc(p.o, p.t, a.shndx) {
      delta := p.n.sections[a.shndx].addr - p.o.sections[a.shndx].addr;
    }
    errors := if b.value != a.value + delta then [SymbolChanged(i, j)] else [];
  }

  /** One symbol table: its errors, and the masks of its moving symbols added to those so far. */
  method CheckSymbolTable(p: Pair, i: nat, old0: seq<Mask>, new0: seq<Mask>)
    returns (errors: seq<Error>, oldMasks: seq<Mask>, newMasks: seq<Mask>)
    requires p.Indexed() && i < |p.o.sections| && p.o.sections[i].IsSymbolTable()
    requires p.o.sections[i].link < |p.o.sections| && p.n.sections[i].link < |p.n.sections|
    ensures errors == [] <==> TableOk(p, i)
    ensures errors == [] && MasksAre(p, p.o, old0, i, 0) && MasksAre(p, p.n, new0, i, 0) ==>
      MasksAre(p, p.o, oldMasks, i + 1, 0) && MasksAre(p, p.n, newMasks, i + 1, 0)
  {
    hide MasksAre, SymbolOk, SymbolAt, ClassOf, Delta, SymbolSection, SymbolCount;
    var s, n := p.o.sections[i], p.n.sections[i];
    ghost var sound := MasksAre(p, p.o, old0, i, 0) && MasksAre(p, p.n, new0, i, 0);
    oldMasks, newMasks := old0, new0;
    if SymbolCount(p.o, s) != SymbolCount(p.n, n) {
      return [SymbolCountChanged(i)], oldMasks, newMasks;
    }
    errors := [];
    for j := 0 to SymbolCount(p.o, s)
      invariant errors == [] <==> forall k :: 0 <= k < j ==> SymbolOk(p, SymbolAt(p.o, s, k), SymbolAt(p.n, n, k))
      invariant sound ==> MasksAre(p, p.o, oldMasks, i, j) && MasksAre(p, p.n, newMasks, i, j)
    {
      var more := CheckSymbol(p, SymbolAt(p.o, s, j), SymbolAt(p.n, n, j), i, j);
      errors := errors + more;
      if sound {
        MaskMore(p, p.o, oldMasks, i, j);
        MaskMore(p, p.n, newMasks, i, j);
      }
      if Moves(p, i, j) {
        oldMasks := oldMasks + [(ValueField(p.o, i, j), ValueField(p.o, i, j) + 8)];
        newMasks := newMasks + [(ValueField(p.n, i, j), ValueField(p.n, i, j) + 8)];
      }
    }
    if sound {
      NextTable(p, p.o, oldMasks, i, SymbolCount(p.o, s));
      NextTable(p, p.n, newMasks, i, SymbolCount(p.o, s));
    }
  }

  /** None: a table links to no section and the script raises. */
  method CheckSymbols(p: Pair) returns (errors: Option<seq<Error>>, oldMasks: seq<Mask>, newMasks: seq<Mask>)
    requires p.Indexed()
    ensures errors == Some([]) <==> TablesOk(p)
    ensures errors == Some([]) ==> forall pos :: InMasks(oldMasks, pos) <==> SymbolMask(p, p.o, pos)
    ensures errors == Some([]) ==> forall pos :: InMasks(newMasks, pos) <==> SymbolMask(p, p.n, pos)
  {
    hide TableOk, SymbolMask;
    var errs: seq<Error> := [];
    oldMasks, newMasks := [], [];
    NoMasks(p);
    for i := 0 to |p.o.sections|
      invariant errs == [] <==> forall k :: 0 <= k < i && p.o.sections[k].IsSymbolTable() ==> TableOk(p, k)
      invariant errs == [] ==> MasksAre(p, p.o, oldMasks, i, 0) && MasksAre(p, p.n, newMasks, i, 0)
    {
      hide MasksAre, Moves;
      if p.o.sections[i].IsSymbolTable() {
        if p.o.sections[i].link >= |p.o.sections| || p.n.sections[i].link >= |p.n.sections| {
          LinksNeeded(p, i);
          return None, oldMasks, newMasks;
        }
        var more, om, nm := CheckSymbolTable(p, i, oldMasks, newMasks);
        errs, oldMasks, newMasks := errs + more, om, nm;
      } else if errs == [] {
        NoTable(p, i);
        NextTable(p, p.o, oldMasks, i, 0);
        NextTable(p, p.n, newMasks, i, 0);
      }
    }
    if errs == [] {
      AllMasks(p, p.o, oldMasks);
      AllMasks(p, p.n, newMasks);
    }
    errors := Some(errs);
  }

  lemma NoMasks(p: Pair)
    requires p.Indexed()
    ensures MasksAre(p, p.o, [], 0, 0) && MasksAre(p, p.n, [], 0, 0)
  {
    hide Moves;
  }

  lemma NoTable(p: Pair, i: nat)
    requires p.Indexed() && i < |p.o.sections| && !p.o.sections[i].IsSymbolTable()
    ensures forall b: nat :: !Moves(p, i, b)
  {
    hide ClassOf, Delta;
  }

  lemma LinksNeeded(p: Pair, i: nat)
    requires p.Indexed() && i < |p.o.sections|
    ensures TableOk(p, i) ==> p.o.sections[i].link < |p.o.sections| && p.n.sections[i].link < |p.n.sections|
  {
    hide SymbolOk, SymbolAt;
  }

  // ---- _DYNAMIC, kernels and descriptors ----

  method CheckDynamicTable(p: Pair, i: nat, d: nat) returns (ok: bool)
    requires p.Indexed() && TablesOk(p) && i < |p.o.sections| && p.o.sections[i].IsSymbolTable()
    requires d == FirstNamed(p.o, DYNAMIC_NAME, 0) < |p.o.sections|
    ensures ok <==> DynamicOk(p, i)
  {
    hide SymbolAt, SymbolOk, SymbolCount, TableNamed, FirstNamed, SectionName;
    if TableNamed(p.o, SectionName(p.o, p.o.sections[i]), |p.o.sections|) != Some(i) {
      return true;
    }
    var s, n := p.o.sections[i], p.n.sections[i];
    assert TableOk(p, i);
    for j := 0 to SymbolCount(p.o, s)
      invariant forall k :: 0 <= k < j && SymbolAt(p.o, s, k).name == DYNAMIC_SYMBOL ==>
        SymbolAt(p.n, n, k).value == p.n.sections[d].addr
    {
      if SymbolAt(p.o, s, j).name == DYNAMIC_SYMBOL && SymbolAt(p.n, n, j).value != p.n.sections[d].addr {
        return false;
      }
    }
    ok := true;
  }

  lemma NoDynamic(p: Pair)
    requires p.Indexed() && TablesOk(p) && FirstNamed(p.o, DYNAMIC_NAME, 0) == |p.o.sections|
    ensures forall i :: 0 <= i < |p.o.sections| && p.o.sections[i].IsSymbolTable() ==> DynamicOk(p, i)
  {
    hide TablesOk, FirstNamed, SymbolAt, SymbolCount;
  }

  method CheckDynamic(p: Pair) returns (errors: seq<Error>)
    requires p.Indexed() && TablesOk(p)
    ensures errors == [] <==> forall i :: 0 <= i < |p.o.sections| && p.o.sections[i].IsSymbolTable() ==> DynamicOk(p, i)
  {
    hide DynamicOk, TablesOk, FirstNamed;
    errors := [];
    var d := FirstNamed(p.o, DYNAMIC_NAME, 0);
    if d == |p.o.sections| {
      NoDynamic(p);
      return;
    }
    for i := 0 to |p.o.sections|
      invariant errors == [] <==> forall k :: 0 <= k < i && p.o.sections[k].IsSymbolTable() ==> DynamicOk(p, k)
    {
      if p.o.sections[i].IsSymbolTable() {
        var ok := CheckDynamicTable(p, i, d);
        if !ok {
          errors := errors + [DynamicMoved(i)];
        }
      }
    }
  }

  /** The kernel's code lies in the old .text and is the same bytes at the same place in the new one. */
  method CheckKernel(p: Pair, a: Symbol, b: Symbol) returns (same: bool)
    requires p.Indexed()
    ensures same <==> KernelOk(p, a, b)
  {
    hide Payload, Slice;
    var was, now := Payload(p.o, p.Ot()), Payload(p.n, p.Nt());
    var lo := a.value - p.Ot().addr;
    same := lo >= 0 && lo + a.size <= |was| && b.value == a.value && b.size == a.size
      && Slice(now, lo, lo + a.size) == Slice(was, lo, lo + a.size);
  }

  method CheckDescriptor(p: Pair, a: Symbol, b: Symbol) returns (same: bool)
    requires p.Indexed() && a.shndx < |p.o.sections|
    ensures same <==> DescriptorOk(p, a, b)
  {
    hide Payload, PySlice;
    var s, n := p.o.sections[a.shndx], p.n.sections[a.shndx];
    var oldLo, newLo := a.value - s.addr, b.value - n.addr;
    var was := PySlice(Payload(p.o, s), oldLo, oldLo + a.size);
    var now := PySlice(Payload(p.n, n), newLo, newLo + a.size);
    same := was == now && |was| == a.size && b.value == a.value && b.size == a.size;
  }

  method CheckKernels(p: Pair) returns (errors: seq<Error>)
    requires p.Indexed() && TablesOk(p)
    ensures errors == [] <==> KernelsOk(p)
  {
    hide SymbolAt, SymbolOk, SymbolCount, TableNamed, IsKernel, KernelOk, DescriptorOk;
    if KernelTable(p.o).None? {
      return [NoSymbolTable];
    }
    var i := KernelTable(p.o).value;
    assert TableOk(p, i);
    var s, n := p.o.sections[i], p.n.sections[i];
    var kernels := 0;
    errors := [];
    for j := 0 to SymbolCount(p.o, s)
      invariant errors == [] <==> forall k :: 0 <= k < j ==>
        var a, b := SymbolAt(p.o, s, k), SymbolAt(p.n, n, k);
        (IsKernel(p, a) ==> KernelOk(p, a, b)) && (IsDescriptor(p, a) ==> DescriptorOk(p, a, b))
      invariant kernels >= 0 && (kernels > 0 <==> exists k :: 0 <= k < j && IsKernel(p, SymbolAt(p.o, s, k)))
    {
      var a, b := SymbolAt(p.o, s, j), SymbolAt(p.n, n, j);
      if IsKernel(p, a) {
        kernels := kernels + 1;
        var same := CheckKernel(p, a, b);
        if !same {
          errors := errors + [KernelChanged(j)];
        }
      } else if IsDescriptor(p, a) {
        var same := CheckDescriptor(p, a, b);
        if !same {
          errors := errors + [KernelChanged(j)];
        }
      }
    }
    if kernels == 0 {
      errors := errors + [NoKernels];
    }
  }

  method CheckHeader(a: Bytes, b: Bytes) returns (same: bool)
    requires |a| >= 64 && |b| >= 64
    ensures same <==> HeaderSame(a, b)
  {
    var mask: seq<Mask> := [(0x28, 0x30)];
    same := CompareRegion(a[..64], b[..64], 0, 0, mask, mask);
    assert forall k :: InMasks(mask, k) <==> 0x28 <= k < 0x30 by {
      forall k ensures InMasks(mask, k) <==> 0x28 <= k < 0x30 {
        if 0x28 <= k < 0x30 {
          assert mask[0].0 <= k < mask[0].1;
        }
      }
    }
    assert forall k :: 0 <= k < 64 ==>
      a[..64][k] == a[k] && b[..64][k] == b[k]
      && InMasks(mask, 0 + k) == InMasks(mask, k);
  }

  method CheckLaterBytes(p: Pair, oldMasks: seq<Mask>, newMasks: seq<Mask>) returns (same: bool)
    requires p.Indexed()
    requires forall pos :: InMasks(oldMasks, pos) <==> SymbolMask(p, p.o, pos)
    requires forall pos :: InMasks(newMasks, pos) <==> SymbolMask(p, p.n, pos)
    ensures same <==> PostSame(p)
  {
    hide SymbolMask, InMasks;
    var x, y := p.Fo().offset, p.Fn().offset;
    var a, b := Slice(p.o.data, x, p.o.shoff), Slice(p.n.data, y, p.n.shoff);
    same := CompareRegion(a, b, x, y, oldMasks, newMasks);
    assert forall k :: 0 <= k < |a| ==> PostByte(p, p.o, x, k) == if InMasks(oldMasks, x + k) then 0 else a[k];
    assert forall k :: 0 <= k < |b| ==> PostByte(p, p.n, y, k) == if InMasks(newMasks, y + k) then 0 else b[k];
  }

  // ---- the whole comparison ----

  ghost predicate LaterChecks(p: Pair)
    requires p.Indexed()
  {
    && TablesOk(p) && PostSame(p) && p.n.shoff - p.o.shoff == p.FileShift()
    && (forall i :: 0 <= i < |p.o.sections| && p.o.sections[i].IsSymbolTable() ==> DynamicOk(p, i))
    && KernelsOk(p)
  }

  /** Symbols, the bytes after .text, and kernels. */
  method CompareLater(p: Pair) returns (r: Outcome)
    requires p.Indexed()
    ensures r == Report([]) <==> LaterChecks(p)
  {
    hide TablesOk, PostSame, DynamicOk, KernelsOk, InMasks, SymbolMask;
    var symbols, oldMasks, newMasks := CheckSymbols(p);
    if symbols.None? {
      return Raised;
    }
    if symbols.value != [] {
      return Report(symbols.value);
    }
    var errors: seq<Error> := [];
    var same := CheckLaterBytes(p, oldMasks, newMasks);
    if !same {
      errors := errors + [LaterBytesChanged];
    }
    if p.n.shoff - p.o.shoff != p.FileShift() {
      errors := errors + [TableShift];
    }
    var dynamic := CheckDynamic(p);
    var kernels := CheckKernels(p);
    r := Report(errors + dynamic + kernels);
  }

  ghost predicate EarlierChecks(p: Pair)
    requires p.Indexed()
  {
    && HeaderSame(p.o.data, p.n.data) && p.n.shoff % 8 == 0
    && TextHeaderOk(p) && SectionsOk(p) && PlacementOk(p) && PhdrsOk(p)
    && TableAtEnd(p.o) && TableAtEnd(p.n) && HeadSame(p.o, p.n, p.OldEnd())
    && TailOk(Payload(p.o, p.Ot()), Payload(p.n, p.Nt()), p.Ot().size, p.Nt().size, p.Nt().addr)
    && GapsZero(p)
  }

  /** Headers, placement, program headers and the bytes up to the first later section. */
  method CompareEarlier(p: Pair) returns (errors: seq<Error>)
    requires p.Indexed() && |p.o.data| >= 64 && |p.n.data| >= 64
    requires forall i :: 0 <= i < |p.o.sections| ==> ClassOf(p.o, p.t, i) != Overlap
    ensures errors == [] <==> EarlierChecks(p)
  {
    hide HeaderSame, TextHeaderOk, SectionsOk, PlacementOk, PhdrsOk, TableAtEnd, HeadSame, TailOk, Payload, Slice;
    hide AllZero;
    hide Relro, FirstAlloc, ClassOf;
    errors := [];
    var header := CheckHeader(p.o.data, p.n.data);
    if !header {
      errors := errors + [HeaderDiffers];
    }
    if p.n.shoff % 8 != 0 {
      errors := errors + [TableUnaligned];
    }
    var text := CheckText(p);
    var fileShift, addrShift := FindShifts(p);
    var sections, relroOld, relroNew := CheckSections(p, fileShift, addrShift);
    var placement := CheckPlacement(p);
    var phdrs := CheckPhdrs(p, addrShift, relroOld, relroNew);
    var oldTable := CheckTable(p.o);
    var newTable := CheckTable(p.n);
    var head := CheckHead(p.o, p.n, p.OldEnd());
    if !head {
      errors := errors + [HeadChanged];
    }
    var tail := CheckTail(Payload(p.o, p.Ot()), Payload(p.n, p.Nt()), p.Ot().size, p.Nt().size, p.Nt().addr);
    var oldGap := CheckZero(Slice(p.o.data, p.OldEnd(), p.Fo().offset));
    var newGap := CheckZero(Slice(p.n.data, p.NewEnd(), p.Fn().offset));
    if !oldGap || !newGap {
      errors := errors + [GapNotZero];
    }
    errors := errors + text + sections + placement + phdrs + oldTable + newTable + tail;
  }

  /** compare_elf: no exception and no error exactly when the pair is accepted. */
  method CompareElf(o: Elf, n: Elf) returns (r: Outcome)
    requires WellParsed(o) && WellParsed(n)
    ensures r == Report([]) <==> Accepts(o, n)
  {
    hide WellParsed, OnlyText, IsFirst, ClassOf, EarlierChecks, LaterChecks, Passes;
    assert |o.data| >= 64 && |n.data| >= 64 by { AtLeastHeader(o); AtLeastHeader(n); }
    var t := FindText(o);
    var u := FindText(n);
    if t.None? || u.None? {
      NoAcceptance(o, n);
      return Raised;
    }
    TextBound(o, t.value);
    TextBound(n, u.value);
    if |o.sections| != |n.sections| {
      NoAcceptance(o, n);
      return Report([SectionCount]);
    }
    var overlap := CheckOverlap(o, t.value);
    if overlap != [] {
      NoOverlap(o, n, t.value);
      return Report(overlap);
    }
    var f := FindFirst(o, t.value);
    if f.None? {
      NoFirst(o, n, t.value);
      return Report([NoLaterSection]);
    }
    FirstBound(o, t.value, f.value);
    var p := Pair(o, n, t.value, u.value, f.value);
    var earlier := CompareEarlier(p);
    var later := CompareLater(p);
    OnePair(p);
    if later.Raised? {
      return Raised;
    }
    r := Report(earlier + later.errors);
  }

  lemma AtLeastHeader(e: Elf)
    requires WellParsed(e)
    ensures |e.data| >= 64
  {
  }

  lemma TextBound(e: Elf, t: nat)
    requires OnlyText(e, t)
    ensures t < |e.sections|
  {
  }

  lemma FirstBound(o: Elf, t: nat, f: nat)
    requires t < |o.sections| && IsFirst(o, t, f)
    ensures f < |o.sections|
  {
  }

  lemma {:induction false} PassParts(p: Pair)
    ensures Passes(p) <==>
      p.Indexed() && OnlyText(p.o, p.t) && OnlyText(p.n, p.u) && IsFirst(p.o, p.t, p.f)
      && EarlierChecks(p) && LaterChecks(p)
  {
    hide WellParsed, OnlyText, IsFirst, HeaderSame, TextHeaderOk, PlacementOk, PhdrsOk, TableAtEnd, HeadSame;
    hide TailOk, GapsZero, TablesOk, PostSame;
    hide SectionsOk, KernelsOk, DynamicOk;
  }

  /** Nothing is accepted without a unique .text in both files and equal section counts. */
  lemma {:induction false} NoAcceptance(o: Elf, n: Elf)
    requires (forall i :: !OnlyText(o, i)) || (forall i :: !OnlyText(n, i)) || |o.sections| != |n.sections|
    ensures !Accepts(o, n)
  {
    hide OnlyText, IsFirst, EarlierChecks, LaterChecks, Passes;
    forall p: Pair
      ensures !(p.o == o && p.n == n && Passes(p))
    {
      PassParts(p);
    }
  }

  lemma {:induction false} NoOverlap(o: Elf, n: Elf, t: nat)
    requires OnlyText(o, t) && t < |o.sections| && exists i :: 0 <= i < |o.sections| && ClassOf(o, t, i) == Overlap
    ensures !Accepts(o, n)
  {
    var i :| 0 <= i < |o.sections| && ClassOf(o, t, i) == Overlap;
    hide OnlyText, IsFirst, EarlierChecks, LaterChecks, Passes, ClassOf;
    forall p: Pair
      ensures !(p.o == o && p.n == n && Passes(p))
    {
      PassParts(p);
      if p.o == o && p.n == n && Passes(p) {
        OneText(o, t, p.t);
        OverlapFails(p, i);
      }
    }
  }

  lemma {:induction false} OverlapFails(p: Pair, i: nat)
    requires p.Indexed() && i < |p.o.sections| && ClassOf(p.o, p.t, i) == Overlap
    ensures !EarlierChecks(p)
  {
    assert !SectionOk(p, i) by { hide ClassOf, FirstAlloc; }
    hide HeaderSame, TextHeaderOk, PlacementOk, PhdrsOk, TableAtEnd, HeadSame, TailOk, GapsZero, SectionOk;
  }

  lemma {:induction false} NoFirst(o: Elf, n: Elf, t: nat)
    requires OnlyText(o, t) && t < |o.sections| && forall i :: !IsFirst(o, t, i)
    ensures !Accepts(o, n)
  {
    hide OnlyText, IsFirst, LaterChecks, EarlierChecks, Passes;
    forall p: Pair
      ensures !(p.o == o && p.n == n && Passes(p))
    {
      PassParts(p);
      if p.o == o && p.n == n && Passes(p) {
        OneText(o, t, p.t);
      }
    }
  }

  /** The indices are determined by the files, so the pair the method builds decides. */
  lemma {:induction false} OnePair(p: Pair)
    requires p.Indexed() && OnlyText(p.o, p.t) && OnlyText(p.n, p.u) && IsFirst(p.o, p.t, p.f)
    ensures Accepts(p.o, p.n) <==> EarlierChecks(p) && LaterChecks(p)
  {
    hide OnlyText, IsFirst, LaterChecks, EarlierChecks, Passes;
    PassParts(p);
    if Accepts(p.o, p.n) {
      var q: Pair :| q.o == p.o && q.n == p.n && Passes(q);
      PassParts(q);
      OneText(p.o, p.t, q.t);
      OneText(p.n, p.u, q.u);
      OneFirst(p.o, p.t, p.f, q.f);
    }
  }
}
