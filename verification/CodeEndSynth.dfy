/** The synthetic code objects of scripts/check-pm-code-end.py: where _synth_elf puts things, with
    and without the code-end tail, and that the checker's placement rules hold between the two. */
module CodeEndSynth {
  import opened Arithmetic
  import opened ElfFormat
  import opened CodeEnd

  // ---- .text ----

  /** Bytes of .text after placing kernels of these code sizes on 256-byte boundaries. */
  function CodeLength(sizes: seq<nat>): (n: nat) {
    if sizes == [] then 0 else Align(CodeLength(sizes[..|sizes| - 1]), 256) + sizes[|sizes| - 1]
  }

  /** Non-empty whole-dword code. */
  predicate IsCode(sizes: seq<nat>) {
    forall i :: 0 <= i < |sizes| ==> sizes[i] > 0 && sizes[i] % 4 == 0
  }

  lemma {:induction false} CodeDwords(sizes: seq<nat>)
    requires IsCode(sizes)
    ensures CodeLength(sizes) % 4 == 0 && (sizes != [] ==> CodeLength(sizes) > 0)
    decreases |sizes|
  {
    if sizes != [] {
      CodeDwords(sizes[..|sizes| - 1]);
    }
  }

  function TextLength(sizes: seq<nat>, tail: bool): (n: nat) {
    CodeLength(sizes) + if tail then TailLength(CodeLength(sizes)) else 0
  }

  // ---- placement ----

  function BitLength(n: nat): (b: nat) {
    if n == 0 then 0 else 1 + BitLength(n / 2)
  }

  /** Positions that do not depend on .text: what comes before it. */
  datatype Front = Front(dynsymOff: nat, dynsymSize: nat, gnuOff: nat, gnuSize: nat, hashOff: nat, hashSize: nat,
                         dynstrOff: nat, dynstrLen: nat, rodataOff: nat, rodataSize: nat, roEnd: nat,
                         textAddr: nat, textOff: nat)

  const NOTE_OFF: nat := 512
  const NOTE_LEN: nat := 36
  const DYN_SIZE: nat := 112

  function FrontOf(kernels: nat, dynstrLen: nat): (r: Front)
  {
    var nn := 2 * kernels;
    var buckets := if nn / 4 > 1 then nn / 4 else 1;
    var bloom := Two(BitLength(nn * 12 / 64));
    var dynsymSize, gnuSize, hashSize := (1 + nn) * 24, 16 + 8 * bloom + 4 * buckets + 4 * nn, 4 * (2 + 2 * (1 + nn));
    var dynsymOff := Align(NOTE_OFF + NOTE_LEN, 8);
    var gnuOff := Align(dynsymOff + dynsymSize, 8);
    var hashOff := Align(gnuOff + gnuSize, 4);
    var dynstrOff := hashOff + hashSize;
    var rodataOff := Align(dynstrOff + dynstrLen, 64);
    var roEnd := rodataOff + 64 * kernels;
    var textAddr := SegmentStart(roEnd, 256);
    Front(dynsymOff, dynsymSize, gnuOff, gnuSize, hashOff, hashSize, dynstrOff, dynstrLen, rodataOff, 64 * kernels,
          roEnd, textAddr, AlignSkew(roEnd, textAddr))
  }

  /** Positions after .text of the given length. */
  datatype Back = Back(dynAddr: nat, dynOff: nat, relroAddr: nat, relroSize: nat, commentOff: nat, symtabOff: nat,
                       symtabSize: nat, shstrOff: nat, strtabOff: nat, strtabLen: nat, shoff: nat)

  function BackOf(a: Front, kernels: nat, textLen: nat): (r: Back)
  {
    var dynAddr := SegmentStart(a.textAddr + textLen, 8);
    var dynOff := AlignSkew(a.textOff + textLen, dynAddr);
    var relroAddr := dynAddr + DYN_SIZE;
    var commentOff := dynOff + DYN_SIZE;
    var symtabOff := Align(commentOff + 40, 8);
    var symtabSize := (2 + 2 * kernels) * 24;
    var shstrOff := symtabOff + symtabSize;
    var strtabOff := shstrOff + 112;
    var strtabLen := a.dynstrLen + 9;
    Back(dynAddr, dynOff, relroAddr, PagePadding(relroAddr), commentOff, symtabOff, symtabSize, shstrOff, strtabOff,
         strtabLen, Align(strtabOff + strtabLen, 8))
  }

  function PagePadding(addr: nat): (n: nat)
    ensures n < PAGE && (addr + n) % PAGE == 0
  {
    Align(addr, PAGE) - addr
  }

  function Sections(a: Front, b: Back, textLen: nat): (s: seq<Section>)
    ensures |s| == 14
  {
    [ Section(0, 0, 0, 0, 0, 0, 0, 0, 0, 0),
      Section(1, 7, 2, NOTE_OFF, NOTE_OFF, NOTE_LEN, 0, 0, 4, 0),
      Section(7, 11, 2, a.dynsymOff, a.dynsymOff, a.dynsymSize, 5, 1, 8, 24),
      Section(15, 0x6FFFFFF6, 2, a.gnuOff, a.gnuOff, a.gnuSize, 2, 0, 8, 0),
      Section(25, 5, 2, a.hashOff, a.hashOff, a.hashSize, 2, 0, 4, 4),
      Section(31, 3, 2, a.dynstrOff, a.dynstrOff, a.dynstrLen, 0, 0, 1, 0),
      Section(39, 1, 2, a.rodataOff, a.rodataOff, a.rodataSize, 0, 0, 64, 0),
      Section(47, 1, 6, a.textAddr, a.textOff, textLen, 0, 0, 256, 0),
      Section(53, 6, 3, b.dynAddr, b.dynOff, DYN_SIZE, 5, 0, 8, 16),
      Section(62, 8, 3, b.relroAddr, b.commentOff, b.relroSize, 0, 0, 1, 0),
      Section(77, 1, 0x30, 0, b.commentOff, 40, 0, 0, 1, 1),
      Section(86, 2, 0, 0, b.symtabOff, b.symtabSize, 13, 2, 8, 24),
      Section(94, 3, 0, 0, b.shstrOff, 112, 0, 0, 1, 0),
      Section(104, 3, 0, 0, b.strtabOff, b.strtabLen, 0, 0, 1, 0) ]
  }

  function Phdrs(a: Front, b: Back, textLen: nat): (p: seq<Phdr>)
    ensures |p| == 8
  {
    [ Phdr(6, 4, 64, 64, 64, 448, 448, 8),
      Phdr(PT_LOAD, 4, 0, 0, 0, a.roEnd, a.roEnd, PAGE),
      Phdr(PT_LOAD, 5, a.textOff, a.textAddr, a.textAddr, textLen, textLen, PAGE),
      Phdr(PT_LOAD, 6, b.dynOff, b.dynAddr, b.dynAddr, DYN_SIZE, DYN_SIZE + b.relroSize, PAGE),
      Phdr(2, 6, b.dynOff, b.dynAddr, b.dynAddr, DYN_SIZE, DYN_SIZE, 8),
      Phdr(PT_GNU_RELRO, 4, b.dynOff, b.dynAddr, b.dynAddr, DYN_SIZE, DYN_SIZE + b.relroSize, 1),
      Phdr(0x6474E551, 6, 0, 0, 0, 0, 0, 0),
      Phdr(4, 4, NOTE_OFF, NOTE_OFF, NOTE_OFF, NOTE_LEN, NOTE_LEN, 4) ]
  }

  /** The headers of a synthetic object; its payload bytes play no part in the placement rules. */
  function Synth(kernels: nat, dynstrLen: nat, textLen: nat): (e: Elf)
    ensures |e.sections| == 14
  {
    var a := FrontOf(kernels, dynstrLen);
    var b := BackOf(a, kernels, textLen);
    Elf([], 64, b.shoff, 8, 14, 12, Phdrs(a, b, textLen), Sections(a, b, textLen))
  }

  // ---- arithmetic of the placement functions ----

  /** Align gives the smallest multiple of a that is not below x, for every alignment. */
  lemma {:induction false} AlignIs(x: nat, a: nat)
    requires a >= 1
    ensures Align(x, a) % a == 0 && x <= Align(x, a) < x + a
  {
    var q := (x + a - 1) / a;
    MultipleOf(q, a);
    assert x + a - 1 == q * a + (x + a - 1) % a;
  }

  lemma MultipleOf(q: nat, a: nat)
    requires a >= 1
    ensures (q * a) % a == 0
  {
    var m := q * a;
    var z, r := q - m / a, m % a;
    assert m == m / a * a + r;
    OnlyZero(z, a, r);
  }

  lemma OnlyZero(z: int, a: nat, r: nat)
    requires r < a && z * a == r
    ensures r == 0
  {
    assert z >= 1 ==> z * a >= a;
    assert z < 0 ==> z * a < 0;
  }

  /** AlignSkew gives the smallest offset not below x that is congruent to skew within a page. */
  lemma AlignSkewIs(x: nat, skew: nat)
    ensures AlignSkew(x, skew) % PAGE == skew % PAGE && x <= AlignSkew(x, skew) < x + PAGE
  {
  }

  lemma {:induction false} SegmentStartIs(dot: nat, a: nat)
    requires a in {8, 256}
    ensures SegmentStart(dot, a) % a == 0 && SegmentStart(dot, a) >= dot
  {
    AlignIs(dot, PAGE);
    AlignIs(Align(dot, PAGE) + dot % PAGE, a);
  }

  lemma {:induction false} FrontFacts(kernels: nat, dynstrLen: nat)
    ensures var a := FrontOf(kernels, dynstrLen);
      && 548 <= a.dynsymOff && a.dynsymOff + a.dynsymSize <= a.gnuOff && a.gnuOff + a.gnuSize <= a.hashOff
      && a.hashOff + a.hashSize <= a.dynstrOff && a.dynstrOff + a.dynstrLen <= a.rodataOff
        && a.rodataOff + a.rodataSize <= a.roEnd <= a.textOff
      && a.textAddr % 256 == 0 && a.textOff % PAGE == a.textAddr % PAGE && a.dynstrLen == dynstrLen
        && a.textAddr >= a.roEnd
  {
    hide Two, BitLength, SegmentStart, AlignSkew, Align;
    var a := FrontOf(kernels, dynstrLen);
    AlignIs(548, 8);
    AlignIs(a.dynsymOff + a.dynsymSize, 8);
    AlignIs(a.gnuOff + a.gnuSize, 4);
    AlignIs(a.dynstrOff + dynstrLen, 64);
    SegmentStartIs(a.roEnd, 256);
    AlignSkewIs(a.roEnd, a.textAddr);
  }

  lemma {:induction false} BackFacts(a: Front, kernels: nat, textLen: nat)
    ensures var b := BackOf(a, kernels, textLen);
      && b.dynAddr % 8 == 0 && b.dynAddr >= a.textAddr + textLen && b.dynAddr == SegmentStart(a.textAddr + textLen, 8)
      && b.dynOff % PAGE == b.dynAddr % PAGE && b.dynOff >= a.textOff + textLen
        && b.dynOff == AlignSkew(a.textOff + textLen, b.dynAddr)
      && b.relroAddr == b.dynAddr + 112 && b.relroSize == PagePadding(b.relroAddr) && b.commentOff == b.dynOff + 112
      && b.symtabOff % 8 == 0 && b.commentOff + 40 <= b.symtabOff < b.commentOff + 48
      && b.shstrOff == b.symtabOff + b.symtabSize && b.symtabSize == (2 + 2 * kernels) * 24
        && b.strtabOff == b.shstrOff + 112
      && b.strtabLen == a.dynstrLen + 9 && b.shoff % 8 == 0
        && b.strtabOff + b.strtabLen <= b.shoff < b.strtabOff + b.strtabLen + 8
  {
    hide SegmentStart, AlignSkew, Align, PagePadding;
    var b := BackOf(a, kernels, textLen);
    SegmentStartIs(a.textAddr + textLen, 8);
    AlignSkewIs(a.textOff + textLen, b.dynAddr);
    AlignIs(b.commentOff + 40, 8);
    AlignIs(b.strtabOff + b.strtabLen, 8);
  }

  /** Everything after .text moves by one file shift that is a multiple of 8 and one address shift. */
  lemma {:induction false} UniformShift(a: Front, kernels: nat, l1: nat, l2: nat)
    ensures var b, c := BackOf(a, kernels, l1), BackOf(a, kernels, l2);
      var d := c.dynOff - b.dynOff;
      && d % 8 == 0 && c.commentOff - b.commentOff == d && c.symtabOff - b.symtabOff == d
        && c.shstrOff - b.shstrOff == d
      && c.strtabOff - b.strtabOff == d && c.shoff - b.shoff == d && c.relroAddr - b.relroAddr == c.dynAddr - b.dynAddr
  {
    hide SegmentStart, AlignSkew, Align, PagePadding;
    var b, c := BackOf(a, kernels, l1), BackOf(a, kernels, l2);
    DynamicMultiple(a.textAddr + l1, a.textOff + l1);
    DynamicMultiple(a.textAddr + l2, a.textOff + l2);
    MultiplesDiffer(b.dynOff, c.dynOff);
    AlignShift(b.commentOff + 40, c.commentOff + 40);
    AlignShift(b.strtabOff + b.strtabLen, c.strtabOff + c.strtabLen);
  }

  lemma {:induction false} DynamicMultiple(addr: nat, off: nat)
    ensures AlignSkew(off, SegmentStart(addr, 8)) % 8 == 0
  {
    hide *;
    SegmentStartIs(addr, 8);
    AlignSkewIs(off, SegmentStart(addr, 8));
    PageMultiple(AlignSkew(off, SegmentStart(addr, 8)), SegmentStart(addr, 8));
  }

  lemma MultiplesDiffer(x: int, y: int)
    requires x % 8 == 0 && y % 8 == 0
    ensures (y - x) % 8 == 0
  {
  }

  lemma {:induction false} AlignShift(x: nat, y: nat)
    requires (y - x) % 8 == 0
    ensures Align(y, 8) - Align(x, 8) == y - x
  {
    hide Align;
    AlignIs(x, 8);
    AlignIs(y, 8);
    NextAligned(x, y, Align(x, 8), Align(y, 8));
  }

  lemma PageMultiple(off: nat, addr: nat)
    requires off % PAGE == addr % PAGE && addr % 8 == 0
    ensures off % 8 == 0
  {
    var q := off / PAGE - addr / PAGE;
    assert off == addr + 8 * (512 * q);
  }

  lemma NextAligned(x: int, y: int, p: int, q: int)
    requires p % 8 == 0 && q % 8 == 0 && x <= p < x + 8 && y <= q < y + 8 && (y - x) % 8 == 0
    ensures q - p == y - x
  {
  }

  // ---- the checker's placement rules ----

  /** The untailed and tailed headers of the same kernels, with .text at 7 and .dynamic at 8. */
  function SynthPair(kernels: nat, dynstrLen: nat, textLen: nat): (p: Pair)
    ensures p.Indexed() && p.t == p.u == 7 && p.f == 8
  {
    Pair(Synth(kernels, dynstrLen, textLen), Synth(kernels, dynstrLen, textLen + TailLength(textLen)), 7, 7, 8)
  }

  /** p holds the headers of front a with back b and text length l1, and with back c and l2. */
  ghost predicate Shaped(p: Pair, a: Front, b: Back, c: Back, l1: nat, l2: nat) {
    && p.Indexed() && p.t == p.u == 7 && p.f == 8
    && p.o.sections == Sections(a, b, l1) && p.n.sections == Sections(a, c, l2)
    && p.o.phdrs == Phdrs(a, b, l1) && p.n.phdrs == Phdrs(a, c, l2) && p.o.shoff == b.shoff && p.n.shoff == c.shoff
  }

  /** Order of the sections before .text. */
  ghost predicate FrontOk(a: Front) {
    && 548 <= a.dynsymOff && a.dynsymOff + a.dynsymSize <= a.gnuOff && a.gnuOff + a.gnuSize <= a.hashOff
    && a.hashOff + a.hashSize <= a.dynstrOff && a.dynstrOff + a.dynstrLen <= a.rodataOff
      && a.rodataOff + a.rodataSize <= a.roEnd <= a.textOff
    && a.textAddr % 256 == 0 && a.textOff % PAGE == a.textAddr % PAGE
  }

  /** Placement of what follows .text of length l. */
  ghost predicate BackOk(a: Front, b: Back, l: nat) {
    && b.dynAddr >= a.textAddr + l && b.dynAddr == SegmentStart(a.textAddr + l, 8)
    && b.dynOff % PAGE == b.dynAddr % PAGE && b.dynOff >= a.textOff + l
      && b.dynOff == AlignSkew(a.textOff + l, b.dynAddr)
    && b.relroAddr == b.dynAddr + 112 && b.relroSize == PagePadding(b.relroAddr) && b.commentOff == b.dynOff + 112
    && b.commentOff + 40 <= b.symtabOff && b.symtabOff <= b.shstrOff <= b.strtabOff <= b.shoff && b.shoff % 8 == 0
  }

  /** Uniform shifts from back b to back c. */
  ghost predicate Shifted(b: Back, c: Back) {
    var d := c.dynOff - b.dynOff;
    && c.commentOff - b.commentOff == d && c.symtabOff - b.symtabOff == d && c.shstrOff - b.shstrOff == d
    && c.strtabOff - b.strtabOff == d && c.shoff - b.shoff == d && c.relroAddr - b.relroAddr == c.dynAddr - b.dynAddr
    && b.symtabSize == c.symtabSize && b.strtabLen == c.strtabLen
  }

  lemma {:induction false} PairShape(kernels: nat, dynstrLen: nat, textLen: nat) returns (a: Front, b: Back, c: Back)
    ensures Shaped(SynthPair(kernels, dynstrLen, textLen), a, b, c, textLen, textLen + TailLength(textLen))
    ensures FrontOk(a) && BackOk(a, b, textLen) && BackOk(a, c, textLen + TailLength(textLen)) && Shifted(b, c)
  {
    hide FrontOf, BackOf, TailLength, SegmentStart, AlignSkew, PagePadding, Sections, Phdrs;
    var l := textLen + TailLength(textLen);
    a := FrontOf(kernels, dynstrLen);
    b, c := BackOf(a, kernels, textLen), BackOf(a, kernels, l);
    FrontFacts(kernels, dynstrLen);
    BackFacts(a, kernels, textLen);
    BackFacts(a, kernels, l);
    UniformShift(a, kernels, textLen, l);
  }

  lemma {:induction false} Classes(o: Elf, a: Front, b: Back, l: nat)
    requires o.sections == Sections(a, b, l) && FrontOk(a) && BackOk(a, b, l) && l > 0
    ensures ClassOf(o, 7, 0) == Null && ClassOf(o, 7, 7) == Text
    ensures (forall i :: 1 <= i < 7 ==> ClassOf(o, 7, i) == Pre)
      && (forall i :: 8 <= i < 14 ==> ClassOf(o, 7, i) == Post)
  {
    hide SegmentStart, AlignSkew, PagePadding;
    var s := o.sections;
    assert forall i :: 1 <= i < 7 ==> !s[i].IsNull() && !s[i].Nobits() && s[i].offset + s[i].size <= a.textOff;
    assert forall i :: 8 <= i < 14 ==>
      !s[i].IsNull()
      && (if s[i].Nobits() then s[i].Alloc() && s[i].addr >= a.textAddr + l
          else s[i].offset >= a.textOff + l);
  }

  lemma {:induction false} FirstAllocIs(o: Elf, a: Front, b: Back, l: nat)
    requires o.sections == Sections(a, b, l) && FrontOk(a) && BackOk(a, b, l) && l > 0
    ensures FirstAlloc(o, 7, 0) == 8
  {
    Classes(o, a, b, l);
    assert o.sections[8].Alloc() && |o.sections| == 14;
    hide ClassOf, FirstAlloc, FrontOk, BackOk, Sections;
    var k := FirstAlloc(o, 7, 0);
    assert PostAlloc(o, 7, 8);
    assert k < 8 ==> k == 0 || k == 7 || 1 <= k < 7;
  }

  lemma {:induction false} SynthSections(p: Pair, a: Front, b: Back, c: Back, l1: nat, l2: nat)
    requires Shaped(p, a, b, c, l1, l2) && FrontOk(a) && BackOk(a, b, l1) && BackOk(a, c, l2) && Shifted(b, c) && l1 > 0
    ensures SectionsOk(p) && TextHeaderOk(p) && IsFirst(p.o, 7, 8)
    ensures p.n.shoff - p.o.shoff == p.FileShift() && p.n.shoff % 8 == 0
  {
    hide SegmentStart, AlignSkew, PagePadding, ClassOf, FirstAlloc, FrontOk, Phdrs;
    Classes(p.o, a, b, l1);
    FirstAllocIs(p.o, a, b, l1);
    assert p.AddrShift() == c.dynAddr - b.dynAddr && p.FileShift() == c.dynOff - b.dynOff;
    hide SectionOk;
    forall i | 0 <= i < 14
      ensures SectionOk(p, i)
    {
      SynthSection(p, a, b, c, l1, l2, i);
    }
    SynthFirst(p.o, a, b, l1);
  }

  lemma {:induction false} SynthSection(p: Pair, a: Front, b: Back, c: Back, l1: nat, l2: nat, i: nat)
    requires p.Indexed() && p.t == p.u == 7 && p.f == 8 && i < 14
    requires p.o.sections == Sections(a, b, l1) && p.n.sections == Sections(a, c, l2)
    requires ClassOf(p.o, 7, i) == (if i == 0 then Null else if i < 7 then Pre else if i == 7 then Text else Post)
    requires p.AddrShift() == c.dynAddr - b.dynAddr && p.FileShift() == c.dynOff - b.dynOff
    requires var d := c.dynOff - b.dynOff;
      && c.commentOff - b.commentOff == d && c.symtabOff - b.symtabOff == d && c.shstrOff - b.shstrOff == d
      && c.strtabOff - b.strtabOff == d && c.relroAddr - b.relroAddr == c.dynAddr - b.dynAddr
    requires b.symtabSize == c.symtabSize && b.strtabLen == c.strtabLen
    requires b.relroSize == PagePadding(b.relroAddr) && c.relroSize == PagePadding(c.relroAddr)
    ensures SectionOk(p, i)
  {
    hide ClassOf, FirstAlloc, PagePadding;
  }

  lemma {:induction false} SynthFirst(o: Elf, a: Front, b: Back, l: nat)
    requires o.sections == Sections(a, b, l)
    requires b.commentOff == b.dynOff + 112 && b.commentOff + 40 <= b.symtabOff
      && b.symtabOff <= b.shstrOff <= b.strtabOff
    requires forall i :: 0 <= i < 14 ==> (ClassOf(o, 7, i) == Post <==> i >= 8)
    ensures IsFirst(o, 7, 8)
  {
    hide ClassOf;
    forall i | 0 <= i < |o.sections| && PostFile(o, 7, i)
      ensures o.sections[8].offset <= o.sections[i].offset && i >= 8
    {
    }
  }

  lemma {:induction false} RelroSum(o: Elf, e: Elf)
    requires |o.sections| == |e.sections| == 14
    requires forall i :: 0 <= i < 14 ==> ((ClassOf(o, 7, i) == Post && o.sections[i].Nobits()) <==> i == 9)
    ensures Relro(o, 7, e, 14) == e.sections[9].size
  {
    hide ClassOf;
    assert Relro(o, 7, e, 0) == 0;
    assert Relro(o, 7, e, 2) == 0;
    assert Relro(o, 7, e, 4) == 0;
    assert Relro(o, 7, e, 6) == 0;
    assert Relro(o, 7, e, 8) == 0;
    assert Relro(o, 7, e, 9) == 0;
    assert Relro(o, 7, e, 10) == e.sections[9].size;
    assert Relro(o, 7, e, 12) == e.sections[9].size;
    assert Relro(o, 7, e, 13) == e.sections[9].size;
  }

  lemma {:induction false} SynthPhdr(p: Pair, a: Front, b: Back, c: Back, l1: nat, l2: nat, i: nat)
    requires p.Indexed() && p.t == p.u == 7 && p.f == 8 && i < 8
    requires p.o.sections == Sections(a, b, l1) && p.n.sections == Sections(a, c, l2)
    requires p.AddrShift() == c.dynAddr - b.dynAddr && a.textOff >= 548 && b.dynOff >= a.textOff + l1 && l1 > 0
    requires Relro(p.o, 7, p.o, 14) == b.relroSize && Relro(p.o, 7, p.n, 14) == c.relroSize
    ensures PhdrOk(p, Phdrs(a, b, l1)[i], Phdrs(a, c, l2)[i])
  {
    hide ClassOf, FirstAlloc, Relro;
  }

  lemma {:induction false} SynthPhdrs(p: Pair, a: Front, b: Back, c: Back, l1: nat, l2: nat)
    requires Shaped(p, a, b, c, l1, l2) && FrontOk(a) && BackOk(a, b, l1) && BackOk(a, c, l2) && Shifted(b, c) && l1 > 0
    ensures PhdrsOk(p)
  {
    hide SegmentStart, AlignSkew, PagePadding, ClassOf, FirstAlloc, Relro, PhdrOk;
    Classes(p.o, a, b, l1);
    FirstAllocIs(p.o, a, b, l1);
    assert p.AddrShift() == c.dynAddr - b.dynAddr;
    assert forall i :: 0 <= i < 14 ==> (p.o.sections[i].Nobits() <==> i == 9);
    RelroSum(p.o, p.o);
    RelroSum(p.o, p.n);
    forall i | 0 <= i < 8
      ensures PhdrOk(p, p.o.phdrs[i], p.n.phdrs[i])
    {
      SynthPhdr(p, a, b, c, l1, l2, i);
    }
    LoadsOk(a, c, l2);
    assert CoversText(p.n.phdrs[2], p.Nt());
    hide LoadOk, CoversText;
  }

  lemma {:induction false} LoadsOk(a: Front, c: Back, l: nat)
    requires FrontOk(a) && BackOk(a, c, l)
    ensures forall i :: 0 <= i < 8 ==> LoadOk(Phdrs(a, c, l)[i])
  {
    hide SegmentStart, AlignSkew, PagePadding;
  }

  lemma {:induction false} SynthPlacement(p: Pair, a: Front, b: Back, c: Back, l1: nat, l2: nat)
    requires Shaped(p, a, b, c, l1, l2) && BackOk(a, b, l1) && BackOk(a, c, l2)
    ensures PlacementOk(p) && FollowsRule(p)
  {
    hide SegmentStart, AlignSkew, PagePadding, Phdrs;
  }

  /** For every non-empty kernel list of non-empty whole-dword code and every name table: between
      the untailed and the tailed object all placement rules of the checker hold, the tailed .text
      ends on a cache line, and OLD follows the segment-start rule. */
  lemma {:induction false} SynthesisFollowsRules(sizes: seq<nat>, dynstrLen: nat)
    requires IsCode(sizes) && sizes != []
    ensures var p := SynthPair(|sizes|, dynstrLen, TextLength(sizes, false));
      && p.n == Synth(|sizes|, dynstrLen, TextLength(sizes, true))
      && IsFirst(p.o, 7, 8) && TextHeaderOk(p) && SectionsOk(p) && PlacementOk(p) && FollowsRule(p) && PhdrsOk(p)
      && p.n.shoff - p.o.shoff == p.FileShift() && p.n.shoff % 8 == 0
      && p.Nt().size == p.Ot().size + TailLength(p.Ot().size) && AlignBytes(p.Ot().size) % 4 == 0
      && p.Nt().size % 128 == 0 && (p.Nt().addr + p.Nt().size) % 128 == 0
  {
    hide *;
    CodeDwords(sizes);
    TextLengths(sizes);
    SynthRules(|sizes|, dynstrLen, TextLength(sizes, false));
    PairNew(|sizes|, dynstrLen, TextLength(sizes, false));
  }

  lemma TextLengths(sizes: seq<nat>)
    ensures TextLength(sizes, false) == CodeLength(sizes)
    ensures TextLength(sizes, true) == TextLength(sizes, false) + TailLength(TextLength(sizes, false))
  {
  }

  lemma PairNew(kernels: nat, dynstrLen: nat, textLen: nat)
    ensures SynthPair(kernels, dynstrLen, textLen).n == Synth(kernels, dynstrLen, textLen + TailLength(textLen))
  {
    hide Synth;
  }

  lemma {:induction false} TextSizes(p: Pair, a: Front, b: Back, c: Back, l1: nat, l2: nat)
    requires Shaped(p, a, b, c, l1, l2) && FrontOk(a)
    ensures p.Ot().size == l1 && p.Nt().size == l2 && p.Nt().addr == a.textAddr && a.textAddr % 256 == 0
  {
    hide Phdrs;
  }

  lemma {:induction false} SynthRules(kernels: nat, dynstrLen: nat, textLen: nat)
    requires textLen > 0 && textLen % 4 == 0
    ensures var p := SynthPair(kernels, dynstrLen, textLen);
      && IsFirst(p.o, 7, 8) && TextHeaderOk(p) && SectionsOk(p) && PlacementOk(p) && FollowsRule(p) && PhdrsOk(p)
      && p.n.shoff - p.o.shoff == p.FileShift() && p.n.shoff % 8 == 0
      && p.Nt().size == p.Ot().size + TailLength(p.Ot().size) && AlignBytes(p.Ot().size) % 4 == 0
      && p.Nt().size % 128 == 0 && (p.Nt().addr + p.Nt().size) % 128 == 0
  {
    hide *;
    var p := SynthPair(kernels, dynstrLen, textLen);
    var a, b, c := PairShape(kernels, dynstrLen, textLen);
    var l := textLen + TailLength(textLen);
    TextSizes(p, a, b, c, textLen, l);
    SynthSections(p, a, b, c, textLen, l);
    SynthPlacement(p, a, b, c, textLen, l);
    SynthPhdrs(p, a, b, c, textLen, l);
    CacheLine(textLen, a.textAddr);
  }

  lemma CacheLine(size: nat, addr: nat)
    requires size % 4 == 0 && addr % 256 == 0
    ensures AlignBytes(size) % 4 == 0 && (size + TailLength(size)) % 128 == 0
      && (addr + (size + TailLength(size))) % 128 == 0
  {
    hide AlignBytes;
    var q := (size + AlignBytes(size)) / 128;
    WholeLines(size, AlignBytes(size), q, addr / 256);
    assert addr == 256 * (addr / 256);
  }

  lemma WholeLines(size: nat, fill: nat, q: nat, page: nat)
    requires size % 4 == 0 && size + fill == 128 * q
    ensures fill % 4 == 0 && (size + (fill + 384)) % 128 == 0 && (256 * page + (size + (fill + 384))) % 128 == 0
  {
    assert size + (fill + 384) == 128 * (q + 3);
    assert 256 * page + 128 * (q + 3) == 128 * (2 * page + q + 3);
  }
}
