/** Names, symbols and kernels of the synthetic code objects under the checker's symbol rules. */
module SynthSymbols {
  import opened Wrappers
  import opened Bytes
  import opened ElfFormat
  import opened CodeEnd
  import opened CodeEndSynth
  import opened Records
  import opened SynthBytes
  import opened SynthParse

  // ---- section names ----

  lemma {:induction false} NoZero(x: Bytes, i: nat)
    requires i <= |x| && forall k :: 0 <= k < |x| ==> x[k] != 0
    ensures UpToZero(x, i) == x[i..]
    decreases |x| - i
  {
    if i < |x| {
      NoZero(x, i + 1);
    }
  }

  lemma {:induction false} ReadAscii(s: string)
    requires forall i :: 0 <= i < |s| ==> 0 < s[i] as int < 128
    ensures |ReadName(Ascii(s))| == |s| && forall i :: 0 <= i < |s| ==> ReadName(Ascii(s))[i] == s[i] as int
  {
    var x := Ascii(s);
    NoZero(x, 0);
    assert x[0..] == x;
    hide UpToZero;
  }

  lemma {:induction false} KnownNames()
    ensures ReadName(Ascii(".text")) == TEXT && ReadName(Ascii(".symtab")) == SYMTAB_NAME
    ensures ReadName(Ascii(".dynamic")) == DYNAMIC_NAME && ReadName(Ascii("_DYNAMIC")) == DYNAMIC_SYMBOL
  {
    hide ReadName, Ascii;
    ReadAscii(".text");
    ReadAscii(".symtab");
    ReadAscii(".dynamic");
    ReadAscii("_DYNAMIC");
  }

  lemma {:induction false} EarlierNames(i: nat)
    requires i < 8
    ensures ReadName(SectionNames()[i]) != DYNAMIC_NAME
  {
    hide ReadName, Ascii;
    ReadAscii(SectionText(i));
  }

  /** The reader finds every section's name. */
  lemma {:induction false} SectionNameIs(e: Elf, ks: seq<Kernel>, a: Front, b: Back, text: Bytes, i: nat)
    requires Reads(e, ks, a, b, text) && i < 14
    ensures SectionName(e, e.sections[i]) == ReadName(SectionNames()[i])
  {
    hide HeadPayloads, Strings, ReadName, CStr, Phdrs, Sections, SectionNames, Payload, AllEntries, EntryRecords, Table;
    NameOffsets(a, b, |text|, i);
    NameReads(SectionNames(), i);
  }

  /** Only .dynsym and .symtab are symbol tables, linked to .dynstr and .strtab. */
  lemma {:induction false} TwoTables(a: Front, b: Back, l: nat)
    ensures forall i :: 0 <= i < 14 ==> (Sections(a, b, l)[i].IsSymbolTable() <==> i == 2 || i == 11)
    ensures Sections(a, b, l)[2].link == 5 && Sections(a, b, l)[11].link == 13
  {
  }

  // ---- symbol names ----

  /** A kernel name that reads as `_DYNAMIC`. */
  predicate NamedDynamic(ks: seq<Kernel>) {
    exists k :: 0 <= k < |ks| && ReadName(ks[k].name) == DYNAMIC_SYMBOL
  }

  lemma {:induction false} CutJoined(x: Bytes, i: nat)
    requires i <= |x|
    ensures var y := x + Ascii(".kd"); var r := UpToZero(y, i);
      r == UpToZero(x, i) || (r != [] && r[|r| - 1] == 0x64)
    decreases |x| - i
  {
    var kd := Ascii(".kd");
    var y := x + kd;
    if i == |x| {
      assert y[i] == 0x2E && y[i + 1] == 0x6B && y[i + 2] == 0x64;
      assert UpToZero(y, i + 3) == [];
      assert UpToZero(y, i + 2) == [0x64];
      assert UpToZero(y, i + 1) == [0x6B, 0x64];
      assert UpToZero(y, i) == [0x2E, 0x6B, 0x64];
    } else if x[i] != 0 {
      CutJoined(x, i + 1);
      assert y[i] == x[i];
    }
  }

  lemma NotDynamic(r: Bytes)
    ensures r != [] && r[|r| - 1] == 0x64 ==> Decode(r) != DYNAMIC_SYMBOL
  {
    if r != [] {
      assert Decode(r)[|r| - 1] == Character(r[|r| - 1]) && |Decode(r)| == |r|;
    }
    assert DYNAMIC_SYMBOL[|DYNAMIC_SYMBOL| - 1] == 0x43;
  }

  /** A descriptor's name reads as `_DYNAMIC` only if its kernel's does. */
  lemma {:induction false} DescriptorName(ks: seq<Kernel>, i: nat)
    requires i < 2 * |ks| && ReadName(NameOf(ks, i)) == DYNAMIC_SYMBOL
    ensures NamedDynamic(ks)
  {
    var x := ks[i / 2].name;
    hide UpToZero, Ascii;
    if i % 2 == 1 {
      CutJoined(x, 0);
      NotDynamic(UpToZero(x + Ascii(".kd"), 0));
    } else {
      assert x + [] == x;
    }
    assert ReadName(x) == DYNAMIC_SYMBOL;
  }

  lemma {:induction false} DynName(ks: seq<Kernel>, a: Front, j: nat)
    requires j < 2 * |ks| + 1
    ensures CStr(Dynstr(ks), DynEntries(ks, a)[j].name) == ReadName(Names(ks)[j])
  {
    assert |Strings(Names(ks), 0)| == 0;
    hide ReadName, CStr, Strings, Start;
    NameReads(Names(ks), j);
  }

  /** Place of symbol j of .symtab in the name list. */
  function NameIndex(ks: seq<Kernel>, j: nat): (i: nat) {
    if j == 0 then 0 else if j == 1 then 2 * |ks| + 1 else j - 1
  }

  lemma {:induction false} TabName(ks: seq<Kernel>, a: Front, dynAddr: nat, j: nat)
    requires j < 2 * |ks| + 2
    ensures CStr(Strtab(ks), AllEntries(ks, a, dynAddr)[j].name) == ReadName(AllNames(ks)[NameIndex(ks, j)])
  {
    hide ReadName, CStr, Strings, Strtab, AllEntries, AllNames;
    EntryName(ks, a, dynAddr, j);
    NameReads(AllNames(ks), NameIndex(ks, j));
    assert Strtab(ks) == Strings(AllNames(ks), |AllNames(ks)|) by { StrtabWhole(ks); }
  }

  lemma StrtabWhole(ks: seq<Kernel>)
    ensures Strtab(ks) == Strings(AllNames(ks), |AllNames(ks)|)
  {
    hide Strings, Names;
  }

  lemma {:induction false} EntryName(ks: seq<Kernel>, a: Front, dynAddr: nat, j: nat)
    requires j < 2 * |ks| + 2
    ensures AllEntries(ks, a, dynAddr)[j].name == |Strings(AllNames(ks), NameIndex(ks, j))|
  {
    assert |Strings(Names(ks), 0)| == 0;
    StrtabIs(ks);
    hide Strings, Start, Names, AllNames, Strtab;
    assert Strings(AllNames(ks), NameIndex(ks, j)) == Strings(Names(ks), NameIndex(ks, j));
    if j == 0 {
    } else if j == 1 {
      assert AllEntries(ks, a, dynAddr)[1] == DynamicEntry(ks, dynAddr);
    } else {
      assert AllEntries(ks, a, dynAddr)[j] == EntryOf(ks, a, j - 2);
      assert EntryOf(ks, a, j - 2).name == |Strings(Names(ks), j - 2 + 1)|;
    }
  }

  lemma {:induction false} OnlyDynamic(ks: seq<Kernel>, i: nat)
    requires !NamedDynamic(ks) && i < 2 * |ks| + 1
    ensures ReadName(Names(ks)[i]) != DYNAMIC_SYMBOL && AllNames(ks)[i] == Names(ks)[i]
  {
    assert UpToZero([], 0) == [];
    hide NamedDynamic, NameOf, UpToZero;
    if i > 0 && ReadName(NameOf(ks, i - 1)) == DYNAMIC_SYMBOL {
      DescriptorName(ks, i - 1);
    }
  }

  // ---- what the reader sees ----

  function Resolved(name: Name, y: Entry): Symbol {
    Symbol(name, y.info, y.other, y.shndx, y.value, y.size)
  }

  ghost predicate DynSeen(e: Elf, ks: seq<Kernel>, a: Front)
    requires |e.sections| == 14
  {
    && e.sections[2].link == 5 && SymbolCount(e, e.sections[2]) == 2 * |ks| + 1
    && forall j :: 0 <= j < 2 * |ks| + 1 ==>
      SymbolAt(e, e.sections[2], j) == Resolved(ReadName(Names(ks)[j]), DynEntries(ks, a)[j])
  }

  ghost predicate TabSeen(e: Elf, ks: seq<Kernel>, a: Front, dynAddr: nat)
    requires |e.sections| == 14
  {
    && e.sections[11].link == 13 && SymbolCount(e, e.sections[11]) == 2 * |ks| + 2
    && forall j :: 0 <= j < 2 * |ks| + 2 ==>
      SymbolAt(e, e.sections[11], j) == Resolved(ReadName(AllNames(ks)[NameIndex(ks, j)]),
        AllEntries(ks, a, dynAddr)[j])
  }

  ghost predicate NamesSeen(e: Elf)
    requires |e.sections| == 14
  {
    forall i :: 0 <= i < 14 ==> SectionName(e, e.sections[i]) == ReadName(SectionNames()[i])
  }

  /** The headers, names, symbols, code and descriptors that a written object was made from. */
  ghost predicate Seen(e: Elf, ks: seq<Kernel>, a: Front, b: Back, ro: Bytes, text: Bytes) {
    && e == ParsedAs(e.data, a, b, |text|) && NamesSeen(e) && DynSeen(e, ks, a) && TabSeen(e, ks, a, b.dynAddr)
    && Payload(e, e.sections[6]) == ro && |ro| == 64 * |ks| && Payload(e, e.sections[7]) == text
  }

  lemma {:induction false} PayloadsSeen(e: Elf, ks: seq<Kernel>, a: Front, text: Bytes)
    requires HeadPayloads(e, ks, a, text)
    ensures Payload(e, e.sections[6]) == Rodata(ks, a, |ks|) && Payload(e, e.sections[7]) == text
  {
    hide EntryRecords, DynEntries, Table, Dynstr, Payload, OffsetFits;
  }

  lemma {:induction false} SeenDyn(e: Elf, ks: seq<Kernel>, a: Front, b: Back, text: Bytes)
    requires Reads(e, ks, a, b, text)
    ensures |e.sections| == 14 && DynSeen(e, ks, a)
  {
    hide BackPayloads, Phdrs, Sections, Payload, DynEntries, Table, Dynstr, SymbolAt, SymbolCount, CStr, Fits, Rodata;
    hide ReadName, Names;
    TwoTables(a, b, |text|);
    SymbolRoundTrip(e, e.sections[2], DynEntries(ks, a), 0);
    forall j | 0 <= j < 2 * |ks| + 1
      ensures SymbolAt(e, e.sections[2], j) == Resolved(ReadName(Names(ks)[j]), DynEntries(ks, a)[j])
    {
      SymbolRoundTrip(e, e.sections[2], DynEntries(ks, a), j);
      DynName(ks, a, j);
    }
  }

  lemma {:induction false} SeenTab(e: Elf, ks: seq<Kernel>, a: Front, b: Back, text: Bytes)
    requires Reads(e, ks, a, b, text)
    ensures |e.sections| == 14 && TabSeen(e, ks, a, b.dynAddr)
  {
    hide HeadPayloads, Phdrs, Sections, Payload, AllEntries, Table, Strtab, SymbolAt, SymbolCount, CStr, Fits, Shstrtab;
    hide ReadName, AllNames;
    TwoTables(a, b, |text|);
    SymbolRoundTrip(e, e.sections[11], AllEntries(ks, a, b.dynAddr), 0);
    forall j | 0 <= j < 2 * |ks| + 2
      ensures SymbolAt(e, e.sections[11], j) == Resolved(ReadName(AllNames(ks)[NameIndex(ks, j)]),
        AllEntries(ks, a, b.dynAddr)[j])
    {
      SymbolRoundTrip(e, e.sections[11], AllEntries(ks, a, b.dynAddr), j);
      TabName(ks, a, b.dynAddr, j);
    }
  }

  lemma {:induction false} SeenNames(e: Elf, ks: seq<Kernel>, a: Front, b: Back, text: Bytes)
    requires Reads(e, ks, a, b, text)
    ensures |e.sections| == 14 && NamesSeen(e)
  {
    hide HeadPayloads, BackPayloads, SectionName, ReadName, SectionNames, Sections, Phdrs;
    forall i | 0 <= i < 14
      ensures SectionName(e, e.sections[i]) == ReadName(SectionNames()[i])
    {
      SectionNameIs(e, ks, a, b, text, i);
    }
  }

  lemma {:induction false} ReadsSeen(e: Elf, ks: seq<Kernel>, a: Front, b: Back, ro: Bytes, text: Bytes)
    requires Usable(ks) && (forall k :: 0 <= k < |ks| ==> OffsetFits(ks, a, k)) && ro == Rodata(ks, a, |ks|)
    requires Reads(e, ks, a, b, text)
    ensures Seen(e, ks, a, b, ro, text)
  {
    hide HeadPayloads, BackPayloads, NamesSeen, DynSeen, TabSeen, Payload, Sections, Phdrs, Rodata;
    SeenDyn(e, ks, a, b, text);
    SeenTab(e, ks, a, b, text);
    SeenNames(e, ks, a, b, text);
    PayloadsSeen(e, ks, a, text);
  }

  lemma {:induction false} TextIsOnly(e: Elf, ks: seq<Kernel>, a: Front, b: Back, ro: Bytes, text: Bytes)
    requires Seen(e, ks, a, b, ro, text)
    ensures OnlyText(e, 7)
  {
    hide DynSeen, TabSeen, Payload, SectionName, ReadName, Phdrs, Ascii, Sections;
    KnownNames();
    OneExec(a, b, |text|);
  }

  lemma OneExec(a: Front, b: Back, l: nat)
    ensures forall i :: 0 <= i < 14 ==> (Sections(a, b, l)[i].Exec() <==> i == 7)
  {
  }

  lemma {:induction false} FirstNamedIs(o: Elf, name: Name, i: nat, k: nat)
    requires i <= k < |o.sections| && SectionName(o, o.sections[k]) == name
    requires forall j :: i <= j < k ==> SectionName(o, o.sections[j]) != name
    ensures FirstNamed(o, name, i) == k
    decreases k - i
  {
    hide SectionName;
    if i < k {
      FirstNamedIs(o, name, i + 1, k);
    }
  }

  lemma {:induction false} DynamicIsEighth(e: Elf, ks: seq<Kernel>, a: Front, b: Back, ro: Bytes, text: Bytes)
    requires Seen(e, ks, a, b, ro, text)
    ensures FirstNamed(e, DYNAMIC_NAME, 0) == 8
  {
    hide DynSeen, TabSeen, Payload, SectionName, ReadName, Phdrs, Ascii, Sections, FirstNamed;
    KnownNames();
    forall j | 0 <= j < 8
      ensures SectionName(e, e.sections[j]) != DYNAMIC_NAME
    {
        EarlierNames(j);
    }
    FirstNamedIs(e, DYNAMIC_NAME, 0, 8);
  }

  lemma {:induction false} SymtabIsEleventh(e: Elf, ks: seq<Kernel>, a: Front, b: Back, ro: Bytes, text: Bytes)
    requires Seen(e, ks, a, b, ro, text)
    ensures TableNamed(e, SYMTAB_NAME, 14) == Some(11) && KernelTable(e) == Some(11)
    ensures SectionName(e, e.sections[11]) == SYMTAB_NAME
  {
    KnownNames();
    hide DynSeen, TabSeen, Payload, SectionName, ReadName, Phdrs, Ascii;
    assert !e.sections[13].IsSymbolTable() && !e.sections[12].IsSymbolTable() && e.sections[11].IsSymbolTable();
    hide Sections;
    assert TableNamed(e, SYMTAB_NAME, 12) == Some(11);
    assert TableNamed(e, SYMTAB_NAME, 13) == Some(11);
  }

  // ---- the checker's symbol rules ----

  predicate Extends(was: Bytes, now: Bytes) {
    |was| <= |now| && now[..|was|] == was
  }

  /** The untailed and tailed readings of the same kernels. */
  ghost predicate Twins(p: Pair, ks: seq<Kernel>, a: Front, b: Back, c: Back, ro: Bytes, was: Bytes, now: Bytes) {
    && was == CodeBytes(ks, |ks|) && Extends(was, now)
    && p.t == p.u == 7 && p.f == 8 && Laid(ks, a, b, |was|) && Laid(ks, a, c, |now|) && Shifted(b, c)
    && Seen(p.o, ks, a, b, ro, was) && Seen(p.n, ks, a, c, ro, now)
  }

  lemma {:induction false} TwinsShaped(p: Pair, ks: seq<Kernel>, a: Front, b: Back, c: Back, ro: Bytes, was: Bytes,
                                       now: Bytes)
    requires Twins(p, ks, a, b, c, ro, was, now)
    ensures Shaped(p, a, b, c, |was|, |now|)
    ensures FrontOk(a) && BackOk(a, b, |was|) && BackOk(a, c, |now|) && Shifted(b, c)
  {
    hide NamesSeen, DynSeen, TabSeen, Payload, FrontOk, BackOk, Phdrs, Sections, Dynstr, Shifted, CodeBytes;
  }

  lemma {:induction false} TwinsRead(p: Pair, ks: seq<Kernel>, a: Front, b: Back, c: Back, ro: Bytes, was: Bytes,
                                     now: Bytes)
    requires Twins(p, ks, a, b, c, ro, was, now)
    ensures p.Indexed() && |p.o.sections| == 14 && Seen(p.o, ks, a, b, ro, was) && Seen(p.n, ks, a, c, ro, now)
  {
    hide NamesSeen, DynSeen, TabSeen, Payload, Laid, Phdrs, Sections, Shifted, CodeBytes;
  }

  lemma {:induction false} DeltasFrom(p: Pair, a: Front, b: Back, c: Back, l1: nat, l2: nat)
    requires Shaped(p, a, b, c, l1, l2)
    requires ClassOf(p.o, 7, 0) == Null && ClassOf(p.o, 7, 6) == Pre && ClassOf(p.o, 7, 7) == Text
      && ClassOf(p.o, 7, 8) == Post
    ensures Delta(p, 0) == 0 && Delta(p, 6) == 0 && Delta(p, 7) == 0 && Delta(p, 8) == c.dynAddr - b.dynAddr
  {
    hide ClassOf, Phdrs;
    assert p.o.sections[8].Alloc();
  }

  lemma {:induction false} Deltas(p: Pair, ks: seq<Kernel>, a: Front, b: Back, c: Back, ro: Bytes, was: Bytes,
                                  now: Bytes)
    requires Twins(p, ks, a, b, c, ro, was, now) && was != []
    ensures p.Indexed() && Delta(p, 0) == 0 && Delta(p, 6) == 0 && Delta(p, 7) == 0
      && Delta(p, 8) == c.dynAddr - b.dynAddr
  {
    hide Twins, ClassOf, FrontOk, BackOk, Shifted, Phdrs, Sections, Delta;
    TwinsShaped(p, ks, a, b, c, ro, was, now);
    Classes(p.o, a, b, |was|);
    DeltasFrom(p, a, b, c, |was|, |now|);
  }

  lemma {:induction false} DynTableOk(p: Pair, ks: seq<Kernel>, a: Front, b: Back, c: Back, ro: Bytes, was: Bytes,
                                      now: Bytes)
    requires Twins(p, ks, a, b, c, ro, was, now) && was != []
    ensures p.Indexed() && TableOk(p, 2)
  {
    hide Twins, Sections, Phdrs, NamesSeen, SymbolAt, SymbolCount, Delta, CStr, Dynstr, DynEntries, Payload;
    TwinsRead(p, ks, a, b, c, ro, was, now);
    Deltas(p, ks, a, b, c, ro, was, now);
    forall j | 0 <= j < 2 * |ks| + 1
      ensures SymbolOk(p, SymbolAt(p.o, p.o.sections[2], j), SymbolAt(p.n, p.n.sections[2], j))
    {
      DynPlace(ks, a, j);
    }
    hide SymbolOk;
  }

  lemma {:induction false} DynPlace(ks: seq<Kernel>, a: Front, j: nat)
    requires j < 2 * |ks| + 1
    ensures DynEntries(ks, a)[j].shndx in {0, 6, 7}
  {
    hide Strings, Start;
  }

  lemma {:induction false} TabPlace(ks: seq<Kernel>, a: Front, b: nat, c: nat, j: nat)
    requires j < 2 * |ks| + 2
    ensures j != 1 ==> AllEntries(ks, a, b)[j] == AllEntries(ks, a, c)[j] && AllEntries(ks, a, b)[j].shndx in {0, 6, 7}
    ensures j == 1 ==> AllEntries(ks, a, b)[j] == DynamicEntry(ks, b) && AllEntries(ks, a, c)[j] == DynamicEntry(ks, c)
  {
    hide Strings, Start, Dynstr;
  }

  lemma {:induction false} TabTableOk(p: Pair, ks: seq<Kernel>, a: Front, b: Back, c: Back, ro: Bytes, was: Bytes,
                                      now: Bytes)
    requires Twins(p, ks, a, b, c, ro, was, now) && was != []
    ensures p.Indexed() && |p.o.sections| == 14 && TableOk(p, 11)
  {
    hide Twins, Sections, Phdrs, NamesSeen, SymbolAt, SymbolCount, Delta, CStr, Strtab, AllEntries, Dynstr, Payload;
    TwinsRead(p, ks, a, b, c, ro, was, now);
    Deltas(p, ks, a, b, c, ro, was, now);
    forall j | 0 <= j < 2 * |ks| + 2
      ensures SymbolOk(p, SymbolAt(p.o, p.o.sections[11], j), SymbolAt(p.n, p.n.sections[11], j))
    {
      TabPlace(ks, a, b.dynAddr, c.dynAddr, j);
    }
    hide SymbolOk;
  }

  lemma {:induction false} SymbolTablesOk(p: Pair, ks: seq<Kernel>, a: Front, b: Back, c: Back, ro: Bytes, was: Bytes,
                                          now: Bytes)
    requires Twins(p, ks, a, b, c, ro, was, now) && was != []
    ensures p.Indexed() && TablesOk(p)
  {
    hide TableOk, NamesSeen, DynSeen, TabSeen, Payload, Laid, Shifted, Sections, Phdrs, CodeBytes;
    DynTableOk(p, ks, a, b, c, ro, was, now);
    TabTableOk(p, ks, a, b, c, ro, was, now);
    TwoTables(a, b, |was|);
  }

  // ---- _DYNAMIC ----

  lemma {:induction false} CodeGrows(ks: seq<Kernel>, i: nat, m: nat)
    requires i <= m <= |ks|
    ensures |CodeBytes(ks, i)| <= |CodeBytes(ks, m)|
    decreases m
  {
    if i < m {
      CodeGrows(ks, i, m - 1);
    }
  }

  /** Every kernel's code lies in .text. */
  lemma {:induction false} CodeInText(ks: seq<Kernel>, k: nat)
    requires k < |ks|
    ensures Start(ks, k) + |ks[k].code| <= |CodeBytes(ks, |ks|)|
  {
    CodeGrows(ks, k + 1, |ks|);
  }

  /** .dynamic of the tailed object starts after every kernel. */
  lemma {:induction false} DynamicAfter(p: Pair, ks: seq<Kernel>, a: Front, b: Back, c: Back, ro: Bytes, was: Bytes,
                                        now: Bytes, k: nat)
    requires Twins(p, ks, a, b, c, ro, was, now) && k < |ks| && |was| < |now|
    ensures a.textAddr + Start(ks, k) < c.dynAddr
  {
    hide Seen, FrontOk, SegmentStart, AlignSkew, PagePadding, Dynstr, Start, CodeBytes, Shifted;
    CodeInText(ks, k);
  }

  lemma {:induction false} SectionEight(p: Pair, ks: seq<Kernel>, a: Front, b: Back, c: Back, ro: Bytes, was: Bytes,
                                        now: Bytes)
    requires Twins(p, ks, a, b, c, ro, was, now)
    ensures |p.n.sections| == 14 && p.n.sections[8].addr == c.dynAddr
  {
    hide NamesSeen, DynSeen, TabSeen, Payload, Laid, Shifted, Phdrs, CodeBytes;
  }

  lemma {:induction false} DynTableDynamic(p: Pair, ks: seq<Kernel>, a: Front, b: Back, c: Back, ro: Bytes,
                                           was: Bytes, now: Bytes)
    requires Twins(p, ks, a, b, c, ro, was, now) && !NamedDynamic(ks)
    requires p.Indexed() && TablesOk(p) && p.o.sections[2].IsSymbolTable()
    ensures DynamicOk(p, 2)
  {
    hide Twins, Sections, Phdrs, NamesSeen, SymbolAt, SymbolCount, CStr, Dynstr, DynEntries, Payload, NamedDynamic;
    hide ReadName, Names, AllNames;
    hide TableOk, FirstNamed, TableNamed, SectionName;
    TwinsRead(p, ks, a, b, c, ro, was, now);
    forall j | 0 <= j < 2 * |ks| + 1
      ensures SymbolAt(p.o, p.o.sections[2], j).name != DYNAMIC_SYMBOL
    {
      OnlyDynamic(ks, j);
    }
  }

  lemma {:induction false} TabTableDynamic(p: Pair, ks: seq<Kernel>, a: Front, b: Back, c: Back, ro: Bytes,
                                           was: Bytes, now: Bytes)
    requires Twins(p, ks, a, b, c, ro, was, now) && !NamedDynamic(ks)
    requires p.Indexed() && TablesOk(p) && p.o.sections[11].IsSymbolTable()
    ensures DynamicOk(p, 11)
  {
    hide Twins, Sections, Phdrs, NamesSeen, SymbolAt, SymbolCount, CStr, Strtab, AllEntries, Payload, NamedDynamic;
    hide ReadName, Names, AllNames;
    hide TableOk, FirstNamed, TableNamed, SectionName, Dynstr;
    TwinsRead(p, ks, a, b, c, ro, was, now);
    SectionEight(p, ks, a, b, c, ro, was, now);
    DynamicIsEighth(p.o, ks, a, b, ro, was);
    TabPlace(ks, a, b.dynAddr, c.dynAddr, 1);
    forall j | 0 <= j < 2 * |ks| + 2 && j != 1
      ensures SymbolAt(p.o, p.o.sections[11], j).name != DYNAMIC_SYMBOL
    {
      OnlyDynamic(ks, NameIndex(ks, j));
    }
  }

  lemma {:induction false} DynamicsOk(p: Pair, ks: seq<Kernel>, a: Front, b: Back, c: Back, ro: Bytes, was: Bytes,
                                      now: Bytes)
    requires Twins(p, ks, a, b, c, ro, was, now) && !NamedDynamic(ks) && p.Indexed() && TablesOk(p)
    ensures forall i :: 0 <= i < |p.o.sections| && p.o.sections[i].IsSymbolTable() ==> DynamicOk(p, i)
  {
    hide DynamicOk, TablesOk, NamesSeen, DynSeen, TabSeen, Payload, Laid, Shifted, Sections, Phdrs, CodeBytes;
    hide Tailed, NamedDynamic;
    TwoTables(a, b, |was|);
    DynTableDynamic(p, ks, a, b, c, ro, was, now);
    TabTableDynamic(p, ks, a, b, c, ro, was, now);
  }

  /** A kernel that reads as `_DYNAMIC` fails the address check, whatever indices are tried. */
  lemma {:induction false} ClashReported(p: Pair, q: Pair, ks: seq<Kernel>, a: Front, b: Back, c: Back, ro: Bytes,
                                         was: Bytes, now: Bytes, k: nat)
    requires Twins(p, ks, a, b, c, ro, was, now) && k < |ks| && ReadName(ks[k].name) == DYNAMIC_SYMBOL
    requires |was| < |now| && q.o == p.o && q.n == p.n && q.Indexed() && TablesOk(q) && q.o.sections[11].IsSymbolTable()
    ensures !DynamicOk(q, 11)
  {
    hide Twins, Sections, Phdrs, NamesSeen, SymbolAt, SymbolCount, CStr, Strtab, Payload, ReadName, TableOk;
    hide FirstNamed, TableNamed, SectionName;
    hide Dynstr, AllEntries, AllNames, Start;
    var j := 2 * k + 2;
    TwinsRead(p, ks, a, b, c, ro, was, now);
    SectionEight(p, ks, a, b, c, ro, was, now);
    DynamicIsEighth(p.o, ks, a, b, ro, was);
    SymtabIsEleventh(p.o, ks, a, b, ro, was);
    KernelEntry(ks, a, c.dynAddr, k);
    DynamicAfter(p, ks, a, b, c, ro, was, now, k);
  }

  lemma {:induction false} KernelEntry(ks: seq<Kernel>, a: Front, dynAddr: nat, k: nat)
    requires k < |ks|
    ensures var y := AllEntries(ks, a, dynAddr)[2 * k + 2];
      y.info == 0x12 && y.shndx == 7 && y.value == a.textAddr + Start(ks, k) && y.size == |ks[k].code|
    ensures AllNames(ks)[NameIndex(ks, 2 * k + 2)] == ks[k].name
  {
    hide Strings, Start;
    var i := 2 * k;
    assert i / 2 == k && i % 2 == 0;
    assert AllEntries(ks, a, dynAddr)[i + 2] == EntryOf(ks, a, i) && Names(ks)[i + 1] == NameOf(ks, i);
  }

  // ---- kernels and descriptors ----

  predicate HasCode(ks: seq<Kernel>) {
    exists k :: 0 <= k < |ks| && |ks[k].code| > 0
  }

  /** What an entry of .symtab can be. */
  lemma {:induction false} EntryKinds(ks: seq<Kernel>, a: Front, dynAddr: nat, j: nat)
    requires j < 2 * |ks| + 2
    ensures var y := AllEntries(ks, a, dynAddr)[j];
      && (y.info % 16 == 2 ==> j >= 2 && j % 2 == 0 && y == EntryOf(ks, a, 2 * ((j - 2) / 2)))
      && (y.info % 16 == 1 ==> j >= 2 && j % 2 == 1 && y == EntryOf(ks, a, 2 * ((j - 2) / 2) + 1))
  {
    hide Strings, Start, Dynstr;
    var y := AllEntries(ks, a, dynAddr)[j];
    if j < 2 {
      assert y == (if j == 0 then NULL_ENTRY else DynamicEntry(ks, dynAddr));
    } else {
      var i := j - 2;
      assert y == EntryOf(ks, a, i) && i == 2 * (i / 2) + i % 2;
      assert y.info == if i % 2 == 1 then 0x11 else 0x12;
    }
  }

  lemma {:induction false} KernelHeld(ks: seq<Kernel>, a: Front, k: nat)
    requires k < |ks|
    ensures var y := EntryOf(ks, a, 2 * k);
      && y.value == a.textAddr + Start(ks, k) && y.size == |ks[k].code|
        && Start(ks, k) + y.size <= |CodeBytes(ks, |ks|)|
    ensures var d := EntryOf(ks, a, 2 * k + 1);
      d.shndx == 6 && d.value == a.rodataOff + 64 * k && d.size == 64
  {
    hide Strings, Start, CodeBytes;
    CodeInText(ks, k);
  }

  lemma {:induction false} SectionFacts(p: Pair, ks: seq<Kernel>, a: Front, b: Back, c: Back, ro: Bytes, was: Bytes,
                                        now: Bytes)
    requires Twins(p, ks, a, b, c, ro, was, now)
    ensures p.Indexed() && |p.o.sections| == 14 && p.Ot().addr == a.textAddr
    ensures p.o.sections[6].addr == a.rodataOff && p.n.sections[6].addr == a.rodataOff
    ensures Payload(p.o, p.Ot()) == was && Payload(p.n, p.Nt()) == now && was == CodeBytes(ks, |ks|)
      && Extends(was, now)
    ensures Payload(p.o, p.o.sections[6]) == Payload(p.n, p.n.sections[6])
      && |Payload(p.o, p.o.sections[6])| == 64 * |ks|
  {
    hide BackPayloads, Laid, Shifted, Phdrs, CodeBytes, Payload, EntryRecords, DynEntries, Table, Dynstr;
    hide OffsetFits;
  }

  lemma {:induction false} KernelSame(p: Pair, x: Symbol, y: Symbol, was: Bytes, now: Bytes)
    requires p.Indexed() && Payload(p.o, p.Ot()) == was && Payload(p.n, p.Nt()) == now && Extends(was, now)
    requires x == y && p.Ot().addr <= x.value && x.value - p.Ot().addr + x.size <= |was|
    ensures KernelOk(p, x, y)
  {
    hide Payload;
    var lo := x.value - p.Ot().addr;
    assert |now| >= |was| && now[..|was|] == was;
    assert now[lo..lo + x.size] == now[..|was|][lo..lo + x.size];
  }

  lemma {:induction false} DescriptorSame(p: Pair, x: Symbol, y: Symbol, k: nat, n: nat)
    requires p.Indexed() && |p.o.sections| == 14 && x == y && x.shndx == 6 && x.size == 64 && k < n
    requires Payload(p.o, p.o.sections[6]) == Payload(p.n, p.n.sections[6]) && |Payload(p.o, p.o.sections[6])| == 64 * n
    requires p.o.sections[6].addr == p.n.sections[6].addr && x.value == p.o.sections[6].addr + 64 * k
    ensures DescriptorOk(p, x, y)
  {
    hide Payload;
  }

  lemma {:induction false} SymbolServed(p: Pair, ks: seq<Kernel>, a: Front, b: Back, c: Back, ro: Bytes, was: Bytes,
                                        now: Bytes, j: nat)
    requires Twins(p, ks, a, b, c, ro, was, now) && j < 2 * |ks| + 2 && p.Indexed() && |p.o.sections| == 14
    requires TablesOk(p) && p.o.sections[11].link < 14 && p.n.sections[11].link < 14
    requires j < SymbolCount(p.o, p.o.sections[11]) && j < SymbolCount(p.n, p.n.sections[11])
    ensures var x, y := SymbolAt(p.o, p.o.sections[11], j), SymbolAt(p.n, p.n.sections[11], j);
      (IsKernel(p, x) ==> KernelOk(p, x, y)) && (IsDescriptor(p, x) ==> DescriptorOk(p, x, y))
  {
    hide Twins, Sections, Phdrs, NamesSeen, SymbolAt, SymbolCount, CStr, Strtab, Payload, AllEntries, KernelOk;
    hide DescriptorOk, TableOk, TablesOk;
    hide EntryOf, Start, CodeBytes, EndsWithKd;
    var x, y := SymbolAt(p.o, p.o.sections[11], j), SymbolAt(p.n, p.n.sections[11], j);
    TwinsRead(p, ks, a, b, c, ro, was, now);
    SectionFacts(p, ks, a, b, c, ro, was, now);
    TabPlace(ks, a, b.dynAddr, c.dynAddr, j);
    EntryKinds(ks, a, b.dynAddr, j);
    if IsKernel(p, x) && j >= 2 {
      KernelHeld(ks, a, (j - 2) / 2);
      KernelSame(p, x, y, was, now);
    }
    if IsDescriptor(p, x) && j >= 2 {
      KernelHeld(ks, a, (j - 2) / 2);
      DescriptorSame(p, x, y, (j - 2) / 2, |ks|);
    }
  }

  lemma {:induction false} KernelsServed(p: Pair, ks: seq<Kernel>, a: Front, b: Back, c: Back, ro: Bytes, was: Bytes,
                                         now: Bytes, k: nat)
    requires Twins(p, ks, a, b, c, ro, was, now) && k < |ks| && |ks[k].code| > 0 && p.Indexed() && TablesOk(p)
    ensures KernelsOk(p)
  {
    hide Twins, Sections, Phdrs, NamesSeen, SymbolAt, SymbolCount, CStr, Strtab, Payload, AllEntries, KernelOk;
    hide DescriptorOk, TableOk;
    hide EntryOf, Start, CodeBytes, EndsWithKd, KernelTable;
    TwinsRead(p, ks, a, b, c, ro, was, now);
    SectionFacts(p, ks, a, b, c, ro, was, now);
    SymtabIsEleventh(p.o, ks, a, b, ro, was);
    KernelEntry(ks, a, b.dynAddr, k);
    assert p.t == 7 by { TwinsText(p, ks, a, b, c, ro, was, now); }
    assert IsKernel(p, SymbolAt(p.o, p.o.sections[11], 2 * k + 2));
    hide IsKernel;
    forall j | 0 <= j < 2 * |ks| + 2
      ensures var x, y := SymbolAt(p.o, p.o.sections[11], j), SymbolAt(p.n, p.n.sections[11], j);
        (IsKernel(p, x) ==> KernelOk(p, x, y)) && (IsDescriptor(p, x) ==> DescriptorOk(p, x, y))
    {
      SymbolServed(p, ks, a, b, c, ro, was, now, j);
    }
  }

  lemma TwinsText(p: Pair, ks: seq<Kernel>, a: Front, b: Back, c: Back, ro: Bytes, was: Bytes, now: Bytes)
    requires Twins(p, ks, a, b, c, ro, was, now)
    ensures p.t == p.u == 7 && p.f == 8
  {
    hide Seen, Laid, Shifted, CodeBytes;
  }

  /** Without any code there is no kernel to verify, whatever indices are tried. */
  lemma {:induction false} NothingToVerify(p: Pair, q: Pair, ks: seq<Kernel>, a: Front, b: Back, c: Back, ro: Bytes,
                                           was: Bytes, now: Bytes)
    requires Twins(p, ks, a, b, c, ro, was, now) && !HasCode(ks)
    requires q.o == p.o && q.n == p.n && q.Indexed() && TablesOk(q)
    ensures !KernelsOk(q)
  {
    hide Twins, Sections, Phdrs, NamesSeen, SymbolAt, SymbolCount, CStr, Strtab, Payload, AllEntries, KernelOk;
    hide DescriptorOk, TableOk, TablesOk;
    hide Start, CodeBytes, IsDescriptor, KernelTable, Strings;
    TwinsRead(p, ks, a, b, c, ro, was, now);
    SymtabIsEleventh(p.o, ks, a, b, ro, was);
    forall j | 0 <= j < 2 * |ks| + 2
      ensures !IsKernel(q, SymbolAt(p.o, p.o.sections[11], j))
    {
      EntryKinds(ks, a, b.dynAddr, j);
    }
  }
}
