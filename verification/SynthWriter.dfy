/** _synth_elf of scripts/check-pm-code-end.py as it runs, and when its struct.pack calls succeed. */
module SynthWriter {
  import opened Wrappers
  import opened Bytes
  import opened ElfFormat
  import opened CodeEnd
  import opened CodeEndSynth
  import opened Records
  import opened SynthBytes
  import opened SynthParse
  import opened SynthSymbols

  // ---- the loops ----

  /** The inner loop: NOP words until the length is a multiple of 256. */
  method PadText(before: Bytes) returns (text: Bytes)
    requires |before| % 4 == 0
    ensures text == Padded(before)
  {
    WordFits();
    text := before;
    ghost var n := 0;
    ghost var all := (256 - |before| % 256) % 256 / 4;
    while |text| % 256 != 0
      invariant n <= all && text == before + Words(NOP, n)
      decreases all - n
    {
      PaddingLeft(|before|, n, all);
      text := text + Pack(NOP, 4);
      n := n + 1;
    }
    PaddingLeft(|before|, n, all);
  }

  /** Within the padding only its end is a multiple of 256. */
  lemma PaddingLeft(size: nat, n: nat, all: nat)
    requires size % 4 == 0 && all == (256 - size % 256) % 256 / 4 && n <= all
    ensures (size + 4 * n) % 256 == 0 <==> n == all
  {
    var q, r := size / 256, size % 256;
    assert size == 256 * q + r;
    Remainder(q, r + 4 * n);
    if r > 0 {
      assert r % 4 == 0 by { assert r == 4 * (size / 4 - 64 * q); }
    }
  }

  lemma Remainder(q: nat, y: nat)
    requires y <= 256
    ensures (256 * q + y) % 256 == 0 <==> y == 0 || y == 256
  {
  }

  /** .text before the tail, and where each kernel starts. */
  method BuildText(ks: seq<Kernel>) returns (text: Bytes, starts: seq<nat>)
    requires Usable(ks)
    ensures text == CodeBytes(ks, |ks|)
    ensures |starts| == |ks| && forall k :: 0 <= k < |ks| ==> starts[k] == Start(ks, k)
  {
    text, starts := [], [];
    for m := 0 to |ks|
      invariant text == CodeBytes(ks, m) && (m < |ks| ==> |text| % 4 == 0)
      invariant |starts| == m && forall k :: 0 <= k < m ==> starts[k] == Start(ks, k)
    {
      text := PadText(text);
      starts := starts + [|text|];
      if m < |ks| - 1 {
        SumDwords(|text|, |ks[m].code|);
      }
      text := text + ks[m].code;
    }
  }

  /** A string table and the offset of each name in it. */
  method JoinNames(names: seq<Bytes>) returns (strs: Bytes, offsets: seq<nat>)
    ensures strs == Strings(names, |names|)
    ensures |offsets| == |names| && forall i :: 0 <= i < |names| ==> offsets[i] == |Strings(names, i)|
  {
    strs, offsets := [], [];
    for i := 0 to |names|
      invariant strs == Strings(names, i)
      invariant |offsets| == i && forall k :: 0 <= k < i ==> offsets[k] == |Strings(names, k)|
    {
      offsets := offsets + [|strs|];
      strs := strs + names[i] + [0];
    }
  }

  method PutAll(cs: seq<Chunk>) returns (out: Bytes)
    ensures out == Written(cs, |cs|)
  {
    out := [];
    for m := 0 to |cs|
      invariant out == Written(cs, m)
    {
      out := Put(out, cs[m]);
    }
  }

  lemma DynstrIs(ks: seq<Kernel>)
    ensures Dynstr(ks) == Strings(Names(ks), |Names(ks)|)
  {
    hide Strings, NameOf;
  }

  /** Text, tail, names, positions, and the writes. */
  method SynthElf(ks: seq<Kernel>, tail: Tail) returns (r: Option<Bytes>)
    requires Usable(ks)
    ensures r == ElfBytes(ks, tail)
  {
    hide Usable, Packable, CodeBytes, Dynstr, Names, Strings, Chunks, Written;
    var text, _ := BuildText(ks);
    if !FillFits(tail) {
      return None;
    }
    text := Tailed(text, tail);
    var dynstr, _ := JoinNames(Names(ks));
    assert dynstr == Dynstr(ks) by { DynstrIs(ks); }
    var a := FrontOf(|ks|, |dynstr|);
    var b := BackOf(a, |ks|, |text|);
    if !Packable(ks, a, b, |text|) {
      return None;
    }
    var out := PutAll(Chunks(ks, a, b, text));
    r := Some(out);
  }

  function Sizes(ks: seq<Kernel>, m: nat): (sizes: seq<nat>)
    requires m <= |ks|
  {
    seq(m, i requires 0 <= i < m => |ks[i].code|)
  }

  /** The length of .text depends on the code sizes only. */
  lemma {:induction false} TextLengthIs(ks: seq<Kernel>, m: nat)
    requires Usable(ks) && m <= |ks|
    ensures |CodeBytes(ks, m)| == CodeLength(Sizes(ks, m)) && (m < |ks| ==> |CodeBytes(ks, m)| % 4 == 0)
  {
    if m > 0 {
      TextLengthIs(ks, m - 1);
      assert Sizes(ks, m)[..m - 1] == Sizes(ks, m - 1);
      hide Padded, Align;
      if m < |ks| {
        SumDwords(|Padded(CodeBytes(ks, m - 1))|, |ks[m - 1].code|);
      }
    }
  }

  // ---- when every field fits ----

  const WORD: nat := 0x1_0000_0000
  const QUAD: nat := 0x1_0000_0000_0000_0000

  /** The four quantities that can outgrow their fields. */
  predicate SmallEnough(ks: seq<Kernel>, a: Front, b: Back) {
    && |Dynstr(ks)| < WORD && b.shoff < QUAD && b.relroAddr < QUAD
    && forall k :: 0 <= k < |ks| ==> OffsetFits(ks, a, k)
  }

  lemma {:induction false} NamesGrow(names: seq<Bytes>, i: nat, m: nat)
    requires i <= m <= |names|
    ensures |Strings(names, i)| <= |Strings(names, m)|
    decreases m
  {
    if i < m {
      NamesGrow(names, i, m - 1);
    }
  }

  lemma {:induction false} EntryFits(ks: seq<Kernel>, a: Front, b: Back, l: nat, i: nat)
    requires Laid(ks, a, b, l) && |CodeBytes(ks, |ks|)| <= l
    requires SmallEnough(ks, a, b) && i < 2 * |ks|
    ensures Fits(EntryRecord(EntryOf(ks, a, i)))
  {
    hide SegmentStart, AlignSkew, PagePadding, Start, CodeBytes, Words, Strings, OffsetFits;
    Limits();
    NamesGrow(Names(ks), i + 1, 2 * |ks| + 1);
    CodeInText(ks, i / 2);
  }

  lemma {:induction false} TableFits(ks: seq<Kernel>, a: Front, b: Back, l: nat)
    requires Laid(ks, a, b, l) && |CodeBytes(ks, |ks|)| <= l
    requires SmallEnough(ks, a, b)
    ensures AllFit(EntryRecords(DynEntries(ks, a))) && AllFit(EntryRecords(AllEntries(ks, a, b.dynAddr)))
  {
    hide Laid, CodeBytes, EntryOf, Dynstr, OffsetFits;
    Limits();
    assert Fits(EntryRecord(NULL_ENTRY));
    assert Fits(EntryRecord(DynamicEntry(ks, b.dynAddr))) by { SmallDynamic(ks, a, b, l); }
    forall i | 0 <= i < 2 * |ks|
      ensures Fits(EntryRecord(EntryOf(ks, a, i)))
    {
      EntryFits(ks, a, b, l, i);
    }
    hide Fits, EntryRecord;
  }

  lemma {:induction false} SmallDynamic(ks: seq<Kernel>, a: Front, b: Back, l: nat)
    requires Laid(ks, a, b, l) && |CodeBytes(ks, |ks|)| <= l
    requires SmallEnough(ks, a, b)
    ensures Fits(EntryRecord(DynamicEntry(ks, b.dynAddr)))
  {
    hide SegmentStart, AlignSkew, PagePadding, CodeBytes, Dynstr, OffsetFits, FrontOk;
    Limits();
  }

  /** Every position is below the two largest. */
  lemma {:induction false} Bounds(ks: seq<Kernel>, a: Front, b: Back, l: nat)
    requires Laid(ks, a, b, l) && SmallEnough(ks, a, b)
    ensures a.dynsymOff < QUAD && a.dynsymSize < QUAD && a.gnuOff < QUAD && a.gnuSize < QUAD && a.hashOff < QUAD
    ensures a.hashSize < QUAD && a.dynstrOff < QUAD && a.dynstrLen < QUAD && a.rodataOff < QUAD && a.rodataSize < QUAD
    ensures a.roEnd < QUAD && a.textOff < QUAD && a.textAddr < QUAD && l < QUAD && b.dynAddr < QUAD && b.dynOff < QUAD
    ensures b.relroSize < PAGE && b.commentOff < QUAD && b.symtabOff < QUAD && b.symtabSize < QUAD && b.shstrOff < QUAD
    ensures b.strtabOff < QUAD && b.strtabLen < QUAD && b.relroAddr < QUAD && b.shoff < QUAD
  {
    hide SegmentStart, AlignSkew, Dynstr, OffsetFits;
  }

  lemma {:induction false} PhdrFits(a: Front, b: Back, l: nat, i: nat)
    requires a.roEnd < QUAD && a.textOff < QUAD && a.textAddr < QUAD && l < QUAD && b.dynAddr < QUAD && b.dynOff < QUAD
    requires b.relroSize < PAGE && i < 8
    ensures Fits(PhdrRecord(Phdrs(a, b, l)[i]))
  {
    Limits();
    hide Limit;
    var h := Phdrs(a, b, l)[i];
    assert h.kind < WORD && h.flags < WORD && h.offset < QUAD && h.vaddr < QUAD && h.paddr < QUAD;
    assert h.filesz < QUAD && h.memsz < QUAD && h.align < QUAD;
    hide Phdrs;
  }

  lemma {:induction false} SectionFits(a: Front, b: Back, l: nat, i: nat)
    requires a.dynsymOff < QUAD && a.dynsymSize < QUAD && a.gnuOff < QUAD && a.gnuSize < QUAD && a.hashOff < QUAD
    requires a.hashSize < QUAD && a.dynstrOff < QUAD && a.dynstrLen < QUAD && a.rodataOff < QUAD && a.rodataSize < QUAD
    requires a.textOff < QUAD && a.textAddr < QUAD && l < QUAD && b.dynAddr < QUAD && b.dynOff < QUAD
    requires b.relroSize < PAGE && b.commentOff < QUAD && b.symtabOff < QUAD && b.symtabSize < QUAD && b.shstrOff < QUAD
    requires b.strtabOff < QUAD && b.strtabLen < QUAD && b.relroAddr < QUAD && i < 14
    ensures Fits(SectionRecord(Sections(a, b, l)[i]))
  {
    Limits();
    hide Limit;
    var s := Sections(a, b, l)[i];
    assert s.nameIdx < WORD && s.kind < WORD && s.flags < QUAD && s.addr < QUAD && s.offset < QUAD && s.size < QUAD;
    assert s.link < WORD && s.info < WORD && s.align < QUAD && s.entsize < QUAD;
    hide Sections;
  }

  lemma SmallFieldsFit(a: Front, shoff: nat)
    requires a.dynsymOff < QUAD && a.dynstrOff < QUAD && a.dynstrLen < QUAD && a.gnuOff < QUAD && a.hashOff < QUAD
    requires shoff < QUAD
    ensures Fits(HeaderRecord(shoff)) && AllFit(DynamicRecords(a))
  {
    Limits();
    hide Limit;
  }

  lemma {:induction false} HeadersFit(ks: seq<Kernel>, a: Front, b: Back, l: nat)
    requires Laid(ks, a, b, l) && SmallEnough(ks, a, b)
    ensures Fits(HeaderRecord(b.shoff)) && (forall i :: 0 <= i < 8 ==> Fits(PhdrRecord(Phdrs(a, b, l)[i])))
    ensures AllFit(SectionRecords(Sections(a, b, l))) && AllFit(DynamicRecords(a))
  {
    hide Laid, SmallEnough, Fits, Phdrs, PhdrRecord, SectionRecord, HeaderRecord, DynamicRecords, Sections;
    Bounds(ks, a, b, l);
    SmallFieldsFit(a, b.shoff);
    forall i | 0 <= i < 8
      ensures Fits(PhdrRecord(Phdrs(a, b, l)[i]))
    {
      PhdrFits(a, b, l, i);
    }
    forall i | 0 <= i < 14
      ensures Fits(SectionRecord(Sections(a, b, l)[i]))
    {
      SectionFits(a, b, l, i);
    }
  }

  /** _synth_elf succeeds exactly if the fill word and the names fit 32 bits, the file offsets and
      addresses 64 bits, and every descriptor's offset to its code 63 bits. */
  lemma {:induction false} WritableExactly(ks: seq<Kernel>, tail: Tail)
    requires Usable(ks)
    ensures ElfBytes(ks, tail).Some? <==>
      FillFits(tail) && SmallEnough(ks, FrontOfKernels(ks), BackOfKernels(ks, tail))
  {
    if !FillFits(tail) {
      return;
    }
    hide Usable, Packable, SmallEnough, FrontOfKernels, BackOfKernels, Laid, CodeBytes, Written, Chunks;
    var a, b, l := FrontOfKernels(ks), BackOfKernels(ks, tail), |TextBytes(ks, tail)|;
    LaidOut(ks, tail);
    if SmallEnough(ks, a, b) {
      TableFits(ks, a, b, l);
      HeadersFit(ks, a, b, l);
      AllPack(ks, a, b, l);
    }
    if Packable(ks, a, b, l) {
      MustBeSmall(ks, a, b, l);
    }
  }

  lemma AllPack(ks: seq<Kernel>, a: Front, b: Back, l: nat)
    requires AllFit(EntryRecords(DynEntries(ks, a))) && AllFit(EntryRecords(AllEntries(ks, a, b.dynAddr)))
    requires Fits(HeaderRecord(b.shoff)) && (forall i :: 0 <= i < 8 ==> Fits(PhdrRecord(Phdrs(a, b, l)[i])))
    requires AllFit(SectionRecords(Sections(a, b, l))) && AllFit(DynamicRecords(a)) && SmallEnough(ks, a, b)
    ensures Packable(ks, a, b, l)
  {
    hide AllFit, Fits, EntryRecords, SectionRecords, Phdrs, Sections, OffsetFits, Dynstr;
  }

  lemma {:induction false} MustBeSmall(ks: seq<Kernel>, a: Front, b: Back, l: nat)
    requires Packable(ks, a, b, l)
    ensures SmallEnough(ks, a, b)
  {
    hide OffsetFits, Dynstr, DynEntries, AllEntries, Phdrs, PhdrRecord, DynamicRecords, Limit;
    Limits();
    TabPlace(ks, a, b.dynAddr, b.dynAddr, 1);
    assert Fits(EntryRecord(AllEntries(ks, a, b.dynAddr)[1]));
    assert EntryRecord(AllEntries(ks, a, b.dynAddr)[1])[0].value == |Dynstr(ks)|;
    assert HeaderRecord(b.shoff)[5].value == b.shoff;
    assert Fits(SectionRecord(Sections(a, b, l)[9]));
    assert SectionRecord(Sections(a, b, l)[9])[3].value == b.relroAddr;
  }
}
