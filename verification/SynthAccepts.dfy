/** The checker accepts the tailed synthetic object against the untailed one: the self-test's accept
    case, for every list of kernels. */
module SynthAccepts {
  import opened Wrappers
  import opened Bytes
  import opened ElfFormat
  import opened CodeEnd
  import opened CodeEndLaws
  import opened CodeEndSynth
  import opened Records
  import opened SynthBytes
  import opened SynthParse
  import opened SynthSymbols

  // ---- the bytes of the two objects ----

  /** An object with this .text can be written at these positions. */
  ghost predicate CanWrite(ks: seq<Kernel>, a: Front, b: Back, text: Bytes) {
    Usable(ks) && Packable(ks, a, b, |text|) && Laid(ks, a, b, |text|)
  }

  function FileOf(ks: seq<Kernel>, a: Front, b: Back, text: Bytes): (data: Bytes)
    requires Usable(ks) && Packable(ks, a, b, |text|)
  {
    Written(Chunks(ks, a, b, text), 22)
  }

  lemma {:induction false} FileByte(ks: seq<Kernel>, a: Front, b: Back, text: Bytes, k: nat)
    requires CanWrite(ks, a, b, text) && k < b.shoff + 64 * 14
    ensures |FileOf(ks, a, b, text)| == b.shoff + 64 * 14
    ensures FileOf(ks, a, b, text)[k] == ByteAt(Chunks(ks, a, b, text), 22, k)
  {
    hide Usable, Packable, Laid, Written, Chunks, ByteAt, Ordered;
    WritesInOrder(ks, a, b, text);
    FileLength(ks, a, b, text);
    WrittenByte(Chunks(ks, a, b, text), 22, k);
  }

  lemma {:induction false} HeaderBytes(s1: nat, s2: nat, k: nat)
    requires Fits(HeaderRecord(s1)) && Fits(HeaderRecord(s2)) && k < 64 && !(0x28 <= k < 0x30)
    ensures Width(HeaderRecord(s1), 0) == 48 && Width(HeaderRecord(s2), 0) == 48
    ensures (IDENT + PackRecord(HeaderRecord(s1)))[k] == (IDENT + PackRecord(HeaderRecord(s2)))[k]
  {
    var r, s := HeaderRecord(s1), HeaderRecord(s2);
    HeaderWidth(s1);
    HeaderWidth(s2);
    OffsetWidth(s1);
    hide Fits, Width, PackFrom;
    if k >= 16 {
      PackDiffers(r, s, 5, 0, k - 16);
    }
  }

  lemma OffsetWidth(shoff: nat)
    ensures Width(HeaderRecord(shoff), 5) == 24
  {
    var r := HeaderRecord(shoff);
    assert Width(r, 12) == 2;
    assert Width(r, 10) == 6;
    assert Width(r, 8) == 10;
    assert Width(r, 6) == 16;
  }

  /** The parts of the two objects that need comparing. */
  ghost predicate Both(ks: seq<Kernel>, a: Front, b: Back, c: Back, was: Bytes, now: Bytes) {
    && CanWrite(ks, a, b, was) && CanWrite(ks, a, c, now) && Shifted(b, c) && Extends(was, now)
  }

  lemma {:induction false} BackStarts(ks: seq<Kernel>, a: Front, b: Back, text: Bytes, j: nat)
    requires CanWrite(ks, a, b, text) && 16 <= j < 22
    ensures ChunkOf(ks, a, b, text, j).off >= b.dynOff >= a.textOff + |text|
  {
    hide Usable, Packable, FrontOk, SegmentStart, AlignSkew, PagePadding, Dynstr, Table, AllEntries, EntryRecords;
    hide Strtab;
    hide Shstrtab, Comment, DynamicRecords, SectionRecords, Sections;
  }

  lemma {:induction false} HeadEnds(ks: seq<Kernel>, a: Front, b: Back, text: Bytes, j: nat)
    requires CanWrite(ks, a, b, text) && j < 16
    ensures ChunkOf(ks, a, b, text, j).End() <= b.dynOff
  {
    hide Usable, Packable, Laid, Chunks, Ordered, HeadChunk, BackChunk;
    WritesInOrder(ks, a, b, text);
    OrderedApart(Chunks(ks, a, b, text), j, 16);
    DynamicChunk(ks, a, b, text);
  }

  lemma DynamicChunk(ks: seq<Kernel>, a: Front, b: Back, text: Bytes)
    requires Usable(ks) && Packable(ks, a, b, |text|)
    ensures ChunkOf(ks, a, b, text, 16).off == b.dynOff
  {
    hide Usable, Packable, Table, DynamicRecords;
  }

  /** Up to the old .text the two objects agree but for e_shoff and the program headers. */
  lemma {:induction false} HeadAgrees(ks: seq<Kernel>, a: Front, b: Back, c: Back, was: Bytes, now: Bytes, j: nat,
                                      k: nat)
    requires Both(ks, a, b, c, was, now) && j < 22 && k < a.textOff + |was|
    requires !(0x28 <= k < 0x30) && !(64 <= k < 512)
    ensures AgreeAt(ChunkOf(ks, a, b, was, j), ChunkOf(ks, a, c, now, j), k, k)
  {
    hide Usable, Packable, Laid, ChunkOf, Shifted;
    if j == 0 {
      FirstAgrees(ks, a, b, c, was, now, k);
    } else if j < 9 {
      PhdrApart(ks, a, b, was, j, k);
      PhdrApart(ks, a, c, now, j, k);
    } else if j < 15 {
      SameHead(ks, a, b, c, was, now, j);
    } else if j == 15 {
      TextAgrees(ks, a, b, c, was, now, k);
    } else {
      BackStarts(ks, a, b, was, j);
      BackStarts(ks, a, c, now, j);
    }
  }

  lemma {:induction false} FirstAgrees(ks: seq<Kernel>, a: Front, b: Back, c: Back, was: Bytes, now: Bytes, k: nat)
    requires Both(ks, a, b, c, was, now) && !(0x28 <= k < 0x30)
    ensures AgreeAt(ChunkOf(ks, a, b, was, 0), ChunkOf(ks, a, c, now, 0), k, k)
  {
    hide Usable, Laid, HeaderRecord, PackRecord, Fits, EntryRecords, SectionRecords, PhdrRecord, Shifted;
    HeaderWidth(b.shoff);
    HeaderWidth(c.shoff);
    if k < 64 {
      HeaderBytes(b.shoff, c.shoff, k);
    }
  }

  lemma {:induction false} PhdrApart(ks: seq<Kernel>, a: Front, b: Back, text: Bytes, j: nat, k: nat)
    requires CanWrite(ks, a, b, text) && 1 <= j < 9 && !(64 <= k < 512)
    ensures !ChunkOf(ks, a, b, text, j).Covers(k)
  {
    hide Usable, Laid, PackRecord, Fits, EntryRecords, SectionRecords, PhdrRecord, Phdrs;
    PhdrWidth(Phdrs(a, b, |text|)[j - 1]);
  }

  lemma {:induction false} SameHead(ks: seq<Kernel>, a: Front, b: Back, c: Back, was: Bytes, now: Bytes, j: nat)
    requires Both(ks, a, b, c, was, now) && 9 <= j < 15
    ensures ChunkOf(ks, a, b, was, j) == ChunkOf(ks, a, c, now, j)
  {
    hide Usable, Laid, Fits, EntryRecords, SectionRecords, Shifted, Table, Rodata, Dynstr;
  }

  lemma {:induction false} TextAgrees(ks: seq<Kernel>, a: Front, b: Back, c: Back, was: Bytes, now: Bytes, k: nat)
    requires Both(ks, a, b, c, was, now) && k < a.textOff + |was|
    ensures AgreeAt(ChunkOf(ks, a, b, was, 15), ChunkOf(ks, a, c, now, 15), k, k)
  {
    hide Usable, Packable, Laid, Shifted;
    assert forall i :: 0 <= i < |was| ==> now[i] == now[..|was|][i];
  }

  lemma {:induction false} HeadByteSame(ks: seq<Kernel>, a: Front, b: Back, c: Back, was: Bytes, now: Bytes, k: nat)
    requires Both(ks, a, b, c, was, now) && k < a.textOff + |was| && !(0x28 <= k < 0x30) && !(64 <= k < 512)
    requires a.textOff + |was| <= b.shoff && a.textOff + |was| <= c.shoff
    ensures k < |FileOf(ks, a, b, was)| && k < |FileOf(ks, a, c, now)|
    ensures FileOf(ks, a, b, was)[k] == FileOf(ks, a, c, now)[k]
  {
    hide Usable, Packable, Laid, FileOf, ChunkOf, Shifted;
    var cs, ds := Chunks(ks, a, b, was), Chunks(ks, a, c, now);
    forall j | 0 <= j < 22
      ensures AgreeAt(cs[j], ds[j], k, k)
    {
      HeadAgrees(ks, a, b, c, was, now, j, k);
    }
    hide AgreeAt, Chunks;
    SameWritten(cs, ds, 22, k, k);
    FileByte(ks, a, b, was, k);
    FileByte(ks, a, c, now, k);
  }

  /** Between .text and .dynamic there is nothing but zeros. */
  lemma {:induction false} GapZero(ks: seq<Kernel>, a: Front, b: Back, text: Bytes, k: nat)
    requires CanWrite(ks, a, b, text) && a.textOff + |text| <= k < b.dynOff <= b.shoff
    ensures k < |FileOf(ks, a, b, text)| && FileOf(ks, a, b, text)[k] == 0
  {
    hide FileOf, Usable, Packable, Laid, Chunks, ByteAt, Ordered, HeadChunk, BackChunk;
    var cs := Chunks(ks, a, b, text);
    WritesInOrder(ks, a, b, text);
    FileByte(ks, a, b, text, k);
    forall j | 0 <= j < 22
      ensures !cs[j].Covers(k)
    {
      if j >= 16 {
        BackStarts(ks, a, b, text, j);
      } else if j < 15 {
        OrderedApart(cs, j, 15);
      }
    }
    Beyond(cs, 22, k);
  }

  // ---- after .text ----

  lemma {:induction false} EntriesDiffer(ks: seq<Kernel>, a: Front, x: nat, y: nat, k: nat)
    requires AllFit(EntryRecords(AllEntries(ks, a, x))) && AllFit(EntryRecords(AllEntries(ks, a, y)))
    requires k < 24 * (2 * |ks| + 2) && (x == y || !(32 <= k < 40))
    ensures var s, t := Table(EntryRecords(AllEntries(ks, a, x)), 2 * |ks| + 2),
      Table(EntryRecords(AllEntries(ks, a, y)), 2 * |ks| + 2);
      k < |s| == |t| && s[k] == t[k]
  {
    hide Fits, Width, Table, AllEntries, PackRecord, PackFrom, Dynstr;
    var rows, cols, j, m := EntryRecords(AllEntries(ks, a, x)), EntryRecords(AllEntries(ks, a, y)), k / 24,
      2 * |ks| + 2;
    TableLength(rows, m, 24);
    TableLength(cols, m, 24);
    TableByte(rows, m, 24, j, k % 24);
    TableByte(cols, m, 24, j, k % 24);
    TabPlace(ks, a, x, y, j);
    assert k == 24 * j + k % 24;
    if j == 1 && x != y {
      ValueDiffers(DynamicEntry(ks, x), DynamicEntry(ks, y), k % 24);
    }
  }

  lemma {:induction false} ValueDiffers(x: Entry, y: Entry, k: nat)
    requires Fits(EntryRecord(x)) && Fits(EntryRecord(y)) && y == x.(value := y.value) && k < 24 && !(8 <= k < 16)
    ensures k < Width(EntryRecord(x), 0) && k < Width(EntryRecord(y), 0)
    ensures PackRecord(EntryRecord(x))[k] == PackRecord(EntryRecord(y))[k]
  {
    var r := EntryRecord(x);
    assert Width(r, 5) == 8;
    assert Width(r, 4) == 16;
    EntryWidth(x);
    EntryWidth(y);
    hide Fits, Width, PackFrom;
    PackDiffers(r, EntryRecord(y), 4, 0, k);
  }

  lemma {:induction false} BackData(ks: seq<Kernel>, a: Front, b: Back, c: Back, was: Bytes, now: Bytes, j: nat)
    requires Both(ks, a, b, c, was, now) && 16 <= j < 21
    ensures ChunkOf(ks, a, c, now, j).off == ChunkOf(ks, a, b, was, j).off + c.dynOff - b.dynOff
    ensures j != 18 ==> ChunkOf(ks, a, c, now, j).data == ChunkOf(ks, a, b, was, j).data
  {
    hide Usable, Packable, Laid, Table, AllEntries, EntryRecords, Strtab, Shstrtab, Comment, DynamicRecords;
  }

  lemma {:induction false} SymtabAgrees(ks: seq<Kernel>, a: Front, b: Back, c: Back, was: Bytes, now: Bytes, k: nat)
    requires Both(ks, a, b, c, was, now)
    requires b.dynAddr == c.dynAddr || !(b.symtabOff + 32 <= b.dynOff + k < b.symtabOff + 40)
    ensures AgreeAt(ChunkOf(ks, a, b, was, 18), ChunkOf(ks, a, c, now, 18), b.dynOff + k, c.dynOff + k)
  {
    hide Usable, Laid, Table, AllEntries, EntryRecords, DynEntries, SectionRecords, Fits, Strings;
    TableLength(EntryRecords(AllEntries(ks, a, b.dynAddr)), 2 * |ks| + 2, 24);
    TableLength(EntryRecords(AllEntries(ks, a, c.dynAddr)), 2 * |ks| + 2, 24);
    var i := b.dynOff + k - b.symtabOff;
    if 0 <= i < 24 * (2 * |ks| + 2) {
      EntriesDiffer(ks, a, b.dynAddr, c.dynAddr, i);
    }
  }

  lemma {:induction false} TableChunk(ks: seq<Kernel>, a: Front, b: Back, text: Bytes)
    requires Usable(ks) && Packable(ks, a, b, |text|)
    ensures ChunkOf(ks, a, b, text, 21).off == b.shoff
  {
    hide Usable, Packable, Table, SectionRecords, Sections, EntryRecords, AllEntries, DynamicRecords, Strtab;
    hide Shstrtab, Comment;
  }

  lemma {:induction false} BackAgrees(ks: seq<Kernel>, a: Front, b: Back, c: Back, was: Bytes, now: Bytes, j: nat,
                                      k: nat)
    requires Both(ks, a, b, c, was, now) && j < 22 && b.dynOff + k < b.shoff
    requires b.dynAddr == c.dynAddr || !(b.symtabOff + 32 <= b.dynOff + k < b.symtabOff + 40)
    ensures AgreeAt(ChunkOf(ks, a, b, was, j), ChunkOf(ks, a, c, now, j), b.dynOff + k, c.dynOff + k)
  {
    hide Usable, Packable, Laid, ChunkOf;
    if j < 16 {
      HeadEnds(ks, a, b, was, j);
      HeadEnds(ks, a, c, now, j);
    } else if j == 18 {
      SymtabAgrees(ks, a, b, c, was, now, k);
    } else if j < 21 {
      BackData(ks, a, b, c, was, now, j);
    } else {
      TableChunk(ks, a, b, was);
      TableChunk(ks, a, c, now);
    }
  }

  /** From .dynamic to the section headers the two objects agree but for the value of `_DYNAMIC`. */
  lemma {:induction false} BackByteSame(ks: seq<Kernel>, a: Front, b: Back, c: Back, was: Bytes, now: Bytes, k: nat)
    requires Both(ks, a, b, c, was, now) && b.dynOff + k < b.shoff
    requires b.dynAddr == c.dynAddr || !(b.symtabOff + 32 <= b.dynOff + k < b.symtabOff + 40)
    ensures b.dynOff + k < |FileOf(ks, a, b, was)| && c.dynOff + k < |FileOf(ks, a, c, now)|
    ensures FileOf(ks, a, b, was)[b.dynOff + k] == FileOf(ks, a, c, now)[c.dynOff + k]
  {
    hide Usable, Packable, Laid, FileOf, ChunkOf;
    var cs, ds := Chunks(ks, a, b, was), Chunks(ks, a, c, now);
    forall j | 0 <= j < 22
      ensures AgreeAt(cs[j], ds[j], b.dynOff + k, c.dynOff + k)
    {
      BackAgrees(ks, a, b, c, was, now, j, k);
    }
    hide AgreeAt, Chunks;
    SameWritten(cs, ds, 22, b.dynOff + k, c.dynOff + k);
    FileByte(ks, a, b, was, b.dynOff + k);
    FileByte(ks, a, c, now, c.dynOff + k);
  }

  // ---- the tail ----

  /** The tail the checker asks for: whole dwords of code, any alignment filled with code-end words, and
      96 of them after it. */
  predicate RightTail(text: Bytes, tail: Tail) {
    && |text| % 4 == 0 && tail.Present? && tail.dwords == 96
    && (AlignBytes(|text|) == 0 || tail.fill == CODE_END)
  }

  lemma {:induction false} RightIsOk(was: Bytes, tail: Tail, addr: nat)
    requires FillFits(tail) && RightTail(was, tail) && addr % 256 == 0
    ensures var now := Tailed(was, tail); TailOk(was, now, |was|, |now|, addr)
  {
    hide AlignBytes, Words, IsCodeEnd, At;
    var n := AlignBytes(|was|) / 4;
    var now := Tailed(was, tail);
    WordFits();
    CacheLine(|was|, addr);
    WordsJoin(CODE_END, n, 96);
    assert now == was + Words(CODE_END, n + 96);
    forall w | 0 <= w < n + 96
      ensures IsCodeEnd(Word(now, |was|, w))
    {
      WordAt(CODE_END, n + 96, w);
      TailWord(was, Words(CODE_END, n + 96), w);
    }
  }

  lemma {:induction false} RightGrows(was: Bytes, tail: Tail)
    requires FillFits(tail) && RightTail(was, tail)
    ensures |was| < |Tailed(was, tail)|
  {
    hide Words, AlignBytes;
  }

  lemma {:induction false} OkIsRight(was: Bytes, tail: Tail, addr: nat)
    requires FillFits(tail)
    requires var now := Tailed(was, tail); TailOk(was, now, |was|, |now|, addr)
    ensures RightTail(was, tail)
  {
    hide Words, IsCodeEnd;
    var now, n := Tailed(was, tail), AlignBytes(|was|) / 4;
    LineOfDwords(|was|);
    if AlignBytes(|was|) != 0 {
      assert IsCodeEnd(Word(now, |was|, 0));
      FirstWord(was, tail);
    }
  }

  lemma LineOfDwords(size: nat)
    ensures AlignBytes(size) % 4 == 0 ==> size % 4 == 0
  {
    assert size + AlignBytes(size) == 4 * (32 * ((size + AlignBytes(size)) / 128));
  }

  lemma {:induction false} FirstWord(was: Bytes, tail: Tail)
    requires FillFits(tail) && tail.Present? && AlignBytes(|was|) >= 4
    ensures |was| + 4 <= |Tailed(was, tail)|
    ensures IsCodeEnd(Word(Tailed(was, tail), |was|, 0)) ==> tail.fill == CODE_END
  {
    hide AlignBytes, Words;
    var n := AlignBytes(|was|) / 4;
    WordFits();
    WordAt(tail.fill, n, 0);
    UnpackPack(tail.fill, 4);
    assert Tailed(was, tail)[|was|..|was| + 4] == Words(tail.fill, n)[0..4];
  }

  /** The checker's tail rule holds of a written tail exactly if it is the right one. */
  lemma {:induction false} TailExactly(was: Bytes, tail: Tail, addr: nat)
    requires FillFits(tail) && addr % 256 == 0
    ensures var now := Tailed(was, tail); TailOk(was, now, |was|, |now|, addr) <==> RightTail(was, tail)
  {
    hide TailOk, RightTail, Tailed;
    var now := Tailed(was, tail);
    if RightTail(was, tail) {
      RightIsOk(was, tail, addr);
    }
    if TailOk(was, now, |was|, |now|, addr) {
      OkIsRight(was, tail, addr);
    }
  }

  lemma {:induction false} TailWord(was: Bytes, tail: Bytes, w: nat)
    requires CODE_END < Limit(4) && At(tail, 4 * w, Pack(CODE_END, 4))
    ensures IsCodeEnd(Word(was + tail, |was|, w))
  {
    UnpackPack(CODE_END, 4);
    assert (was + tail)[|was| + 4 * w..|was| + 4 * w + 4] == tail[4 * w..4 * w + 4];
  }

  // ---- acceptance ----

  /** p is the pair of parsed files, and both are the bytes written. */
  ghost predicate Made(p: Pair, ks: seq<Kernel>, a: Front, b: Back, c: Back, ro: Bytes, was: Bytes, now: Bytes) {
    && Both(ks, a, b, c, was, now) && p.o.data == FileOf(ks, a, b, was) && p.n.data == FileOf(ks, a, c, now)
    && Twins(p, ks, a, b, c, ro, was, now)
  }

  /** Headers and lengths of a made pair. */
  lemma {:induction false} MadeShape(p: Pair, ks: seq<Kernel>, a: Front, b: Back, c: Back, ro: Bytes, was: Bytes,
                                     now: Bytes)
    requires Made(p, ks, a, b, c, ro, was, now)
    ensures Shaped(p, a, b, c, |was|, |now|) && FrontOk(a) && BackOk(a, b, |was|) && BackOk(a, c, |now|)
      && Shifted(b, c)
    ensures Both(ks, a, b, c, was, now) && p.o.phoff == p.n.phoff == 64 && p.o.phnum == p.n.phnum == 8
    ensures p.o.shnum == p.n.shnum == 14 && |p.o.data| == b.shoff + 64 * 14 && |p.n.data| == c.shoff + 64 * 14
  {
    hide CanWrite, FrontOk, BackOk, FileOf, Shifted;
    assert CanWrite(ks, a, b, was) && CanWrite(ks, a, c, now);
    TwinsShaped(p, ks, a, b, c, ro, was, now);
    LengthOf(ks, a, b, was);
    LengthOf(ks, a, c, now);
    hide CodeBytes, Laid, NamesSeen, DynSeen, TabSeen, Payload, Sections, Phdrs;
  }

  lemma {:induction false} LengthOf(ks: seq<Kernel>, a: Front, b: Back, text: Bytes)
    requires CanWrite(ks, a, b, text)
    ensures Usable(ks) && Packable(ks, a, b, |text|) && |FileOf(ks, a, b, text)| == b.shoff + 64 * 14
  {
    hide Usable, Packable, Laid, Written, Chunks;
    FileLength(ks, a, b, text);
  }

  lemma {:induction false} Positions(p: Pair, a: Front, b: Back, c: Back, l1: nat, l2: nat)
    requires Shaped(p, a, b, c, l1, l2)
    ensures p.Indexed() && p.OldEnd() == a.textOff + l1 && p.NewEnd() == a.textOff + l2
    ensures p.Fo().offset == b.dynOff && p.Fn().offset == c.dynOff && p.FileShift() == c.dynOff - b.dynOff
    ensures |p.o.sections| == 14 && p.o.sections[11].offset == b.symtabOff && p.o.sections[11].kind == SHT_SYMTAB
    ensures p.Ot().addr == p.Nt().addr == a.textAddr && p.Ot().size == l1 && p.Nt().size == l2
    ensures !p.Ot().Nobits() && !p.Nt().Nobits() && p.Ot().offset == p.Nt().offset == a.textOff
  {
    hide Phdrs;
  }

  lemma {:induction false} BackOrder(a: Front, b: Back, l: nat)
    requires BackOk(a, b, l)
    ensures a.textOff + l <= b.dynOff <= b.shoff && b.dynOff <= b.symtabOff <= b.shoff
  {
    hide SegmentStart, AlignSkew, PagePadding;
  }

  lemma {:induction false} MadeParts(p: Pair, ks: seq<Kernel>, a: Front, b: Back, c: Back, ro: Bytes, was: Bytes,
                                     now: Bytes)
    requires Made(p, ks, a, b, c, ro, was, now)
    ensures Both(ks, a, b, c, was, now) && Twins(p, ks, a, b, c, ro, was, now)
    ensures CanWrite(ks, a, b, was) && CanWrite(ks, a, c, now) && Extends(was, now)
    ensures Usable(ks) && Packable(ks, a, b, |was|) && Packable(ks, a, c, |now|)
    ensures p.o.data == FileOf(ks, a, b, was) && p.n.data == FileOf(ks, a, c, now)
  {
    hide Twins, FileOf, Usable, Packable, Laid, Shifted;
  }

  lemma {:induction false} Ends(p: Pair, a: Front, b: Back, c: Back, l1: nat, l2: nat)
    requires Shaped(p, a, b, c, l1, l2) && FrontOk(a) && Shifted(b, c)
    ensures p.o.shoff == b.shoff && p.n.shoff == c.shoff && c.shoff - b.shoff == c.dynOff - b.dynOff && a.textOff >= 548
  {
    hide Phdrs, Sections;
  }

  /** What the byte comparisons need of a made pair. */
  lemma {:induction false} MadeFacts(p: Pair, ks: seq<Kernel>, a: Front, b: Back, c: Back, ro: Bytes, was: Bytes,
                                     now: Bytes)
    requires Made(p, ks, a, b, c, ro, was, now)
    ensures p.Indexed() && p.OldEnd() == a.textOff + |was| && p.NewEnd() == a.textOff + |now| && |was| <= |now|
    ensures p.Fo().offset == b.dynOff && p.Fn().offset == c.dynOff && p.FileShift() == c.dynOff - b.dynOff
    ensures a.textOff >= 548 && a.textOff + |was| <= b.dynOff <= b.shoff && a.textOff + |now| <= c.dynOff <= c.shoff
    ensures p.o.shoff == b.shoff && p.n.shoff == c.shoff && c.shoff - b.shoff == c.dynOff - b.dynOff
    ensures |p.o.data| == b.shoff + 64 * 14 && |p.n.data| == c.shoff + 64 * 14
    ensures p.o.phoff == p.n.phoff == 64 && p.o.phnum == p.n.phnum == 8
  {
    hide Made, Both, Shaped, FrontOk, BackOk, Shifted;
    MadeShape(p, ks, a, b, c, ro, was, now);
    MadeParts(p, ks, a, b, c, ro, was, now);
    Positions(p, a, b, c, |was|, |now|);
    Ends(p, a, b, c, |was|, |now|);
    BackOrder(a, b, |was|);
    BackOrder(a, c, |now|);
  }

  /** The first 64 bytes, and everything up to the end of the old .text. */
  lemma {:induction false} HeadsOk(p: Pair, ks: seq<Kernel>, a: Front, b: Back, c: Back, ro: Bytes, was: Bytes,
                                   now: Bytes)
    requires Made(p, ks, a, b, c, ro, was, now)
    ensures p.Indexed() && HeaderSame(p.o.data, p.n.data) && HeadSame(p.o, p.n, p.OldEnd())
  {
    hide Made, Both, Twins, CanWrite, FileOf, Usable, Packable;
    MadeFacts(p, ks, a, b, c, ro, was, now);
    MadeParts(p, ks, a, b, c, ro, was, now);
    forall k: nat | k < p.OldEnd() && !(0x28 <= k < 0x30) && !(64 <= k < 512)
      ensures k < |p.o.data| && k < |p.n.data| && p.o.data[k] == p.n.data[k]
    {
      HeadByteSame(ks, a, b, c, was, now, k);
    }
  }

  lemma {:induction false} GapsOk(p: Pair, ks: seq<Kernel>, a: Front, b: Back, c: Back, ro: Bytes, was: Bytes,
                                  now: Bytes)
    requires Made(p, ks, a, b, c, ro, was, now)
    ensures p.Indexed() && GapsZero(p)
  {
    hide Made, Both, Twins, CanWrite, FileOf, Usable, Packable;
    MadeFacts(p, ks, a, b, c, ro, was, now);
    MadeParts(p, ks, a, b, c, ro, was, now);
    forall k | a.textOff + |was| <= k < b.dynOff
      ensures p.o.data[k] == 0
    {
      GapZero(ks, a, b, was, k);
    }
    forall k | a.textOff + |now| <= k < c.dynOff
      ensures p.n.data[k] == 0
    {
      GapZero(ks, a, c, now, k);
    }
  }

  /** The old and the new text. */
  lemma {:induction false} TextOk(p: Pair, ks: seq<Kernel>, a: Front, b: Back, c: Back, ro: Bytes, was: Bytes,
                                  now: Bytes, tail: Tail)
    requires Twins(p, ks, a, b, c, ro, was, now) && FillFits(tail) && now == Tailed(was, tail)
    ensures p.Indexed()
    ensures TailOk(Payload(p.o, p.Ot()), Payload(p.n, p.Nt()), p.Ot().size, p.Nt().size, p.Nt().addr)
       <==> RightTail(was, tail)
  {
    TwinsShaped(p, ks, a, b, c, ro, was, now);
    Positions(p, a, b, c, |was|, |now|);
    SectionFacts(p, ks, a, b, c, ro, was, now);
    assert a.textAddr % 256 == 0 by { hide Twins, Shaped, BackOk, Shifted; }
    hide *;
    TailExactly(was, tail, a.textAddr);
  }

  lemma {:induction false} TablesAtEnd(p: Pair, ks: seq<Kernel>, a: Front, b: Back, c: Back, ro: Bytes, was: Bytes,
                                       now: Bytes)
    requires Made(p, ks, a, b, c, ro, was, now)
    ensures TableAtEnd(p.o) && TableAtEnd(p.n)
  {
    hide FileOf, Twins, Usable, Packable, Laid, Sections, Phdrs, FrontOk, BackOk, Shifted;
    MadeShape(p, ks, a, b, c, ro, was, now);
    forall i | 0 <= i < 14
      ensures !p.o.sections[i].Nobits() ==> p.o.sections[i].offset + p.o.sections[i].size <= p.o.shoff
      ensures !p.n.sections[i].Nobits() ==> p.n.sections[i].offset + p.n.sections[i].size <= p.n.shoff
    {
      InFile(ks, a, b, |was|, i);
      InFile(ks, a, c, |now|, i);
    }
  }

  /** If .dynamic moves, the value of `_DYNAMIC` is exempt from the byte comparison. */
  lemma {:induction false} DynamicMoves(p: Pair, ks: seq<Kernel>, a: Front, b: Back, c: Back, ro: Bytes, was: Bytes,
                                        now: Bytes, pos: int)
    requires Twins(p, ks, a, b, c, ro, was, now) && was != [] && b.dynAddr != c.dynAddr
    requires b.symtabOff + 32 <= pos < b.symtabOff + 40
    ensures p.Indexed() && |p.o.sections| == |p.n.sections| && SymbolMask(p, p.o, pos)
  {
    hide Twins, FrontOk, BackOk, Shifted, Phdrs, Sections, Delta, ClassOf, SymbolCount, SymbolSection;
    TwinsShaped(p, ks, a, b, c, ro, was, now);
    Positions(p, a, b, c, |was|, |now|);
    Classes(p.o, a, b, |was|);
    Deltas(p, ks, a, b, c, ro, was, now);
    DynamicSection(p, ks, a, b, c, ro, was, now);
    assert Moves(p, 11, 1);
    assert ValueField(p.o, 11, 1) == b.symtabOff + 32;
  }

  lemma {:induction false} DynamicSection(p: Pair, ks: seq<Kernel>, a: Front, b: Back, c: Back, ro: Bytes, was: Bytes,
                                          now: Bytes)
    requires Twins(p, ks, a, b, c, ro, was, now)
    ensures |p.o.sections| == 14 && 1 < SymbolCount(p.o, p.o.sections[11])
      && SymbolSection(p.o, p.o.sections[11], 1) == 8
  {
    hide Twins, Sections, Phdrs, NamesSeen, SymbolAt, SymbolCount, SymbolSection, AllEntries, Payload, ReadName;
    hide AllNames, Dynstr;
    TwinsRead(p, ks, a, b, c, ro, was, now);
    TabPlace(ks, a, b.dynAddr, b.dynAddr, 1);
    SectionField(p.o, 11, 1);
  }

  lemma SectionField(e: Elf, i: nat, j: nat)
    requires i < |e.sections| && e.sections[i].link < |e.sections| && j < SymbolCount(e, e.sections[i])
    ensures SymbolAt(e, e.sections[i], j).shndx == SymbolSection(e, e.sections[i], j)
  {
    hide CStr, U, Payload;
  }

  lemma {:induction false} LaterOk(p: Pair, ks: seq<Kernel>, a: Front, b: Back, c: Back, ro: Bytes, was: Bytes,
                                   now: Bytes)
    requires Made(p, ks, a, b, c, ro, was, now) && was != [] && p.Indexed() && SectionsOk(p)
    ensures PostSame(p)
  {
    hide Made, Both, Twins, CanWrite, FileOf, Usable, Packable, SymbolMask, SectionOk;
    MadeFacts(p, ks, a, b, c, ro, was, now);
    MadeParts(p, ks, a, b, c, ro, was, now);
    var x, y := b.dynOff, c.dynOff;
    forall k | 0 <= k < b.shoff - x
      ensures PostByte(p, p.o, x, k) == PostByte(p, p.n, y, k)
    {
      MaskShift(p, x + k);
      if !SymbolMask(p, p.o, x + k) {
        if b.dynAddr != c.dynAddr && b.symtabOff + 32 <= x + k < b.symtabOff + 40 {
          DynamicMoves(p, ks, a, b, c, ro, was, now, x + k);
        } else {
          BackByteSame(ks, a, b, c, was, now, k);
        }
      }
    }
  }

  lemma {:induction false} HeaderRules(p: Pair, ks: seq<Kernel>, a: Front, b: Back, c: Back, ro: Bytes, was: Bytes,
                                       now: Bytes)
    requires Made(p, ks, a, b, c, ro, was, now) && was != []
    ensures p.Indexed() && IsFirst(p.o, p.t, p.f) && TextHeaderOk(p) && SectionsOk(p) && PlacementOk(p) && PhdrsOk(p)
    ensures p.n.shoff - p.o.shoff == p.FileShift() && p.n.shoff % 8 == 0
  {
    MadeShape(p, ks, a, b, c, ro, was, now);
    assert p.t == 7 && p.f == 8 && p.Indexed() by { hide Made, FrontOk, BackOk, Shifted, Sections, Phdrs; }
    hide *;
    SynthSections(p, a, b, c, |was|, |now|);
    SynthPlacement(p, a, b, c, |was|, |now|);
    SynthPhdrs(p, a, b, c, |was|, |now|);
  }

  lemma {:induction false} TextsFound(p: Pair, ks: seq<Kernel>, a: Front, b: Back, c: Back, ro: Bytes, was: Bytes,
                                      now: Bytes)
    requires Twins(p, ks, a, b, c, ro, was, now)
    ensures p.Indexed() && OnlyText(p.o, p.t) && OnlyText(p.n, p.u)
  {
    TwinsRead(p, ks, a, b, c, ro, was, now);
    TwinsText(p, ks, a, b, c, ro, was, now);
    hide *;
    TextIsOnly(p.o, ks, a, b, ro, was);
    TextIsOnly(p.n, ks, a, c, ro, now);
  }

  /** The right tail, some code and no kernel that reads as `_DYNAMIC`: every check passes. */
  lemma {:induction false} AllPass(p: Pair, ks: seq<Kernel>, a: Front, b: Back, c: Back, ro: Bytes, was: Bytes,
                                   now: Bytes, tail: Tail, k: nat)
    requires Made(p, ks, a, b, c, ro, was, now) && k < |ks| && |ks[k].code| > 0 && !NamedDynamic(ks)
    requires FillFits(tail) && now == Tailed(was, tail) && RightTail(was, tail)
    ensures Passes(p)
  {
    assert was != [] by { CodeShows(p, ks, a, b, c, ro, was, now, k); hide Made; }
    hide *;
    MadeParts(p, ks, a, b, c, ro, was, now);
    TextsFound(p, ks, a, b, c, ro, was, now);
    HeaderRules(p, ks, a, b, c, ro, was, now);
    HeadsOk(p, ks, a, b, c, ro, was, now);
    GapsOk(p, ks, a, b, c, ro, was, now);
    TextOk(p, ks, a, b, c, ro, was, now, tail);
    TablesAtEnd(p, ks, a, b, c, ro, was, now);
    SymbolTablesOk(p, ks, a, b, c, ro, was, now);
    LaterOk(p, ks, a, b, c, ro, was, now);
    DynamicsOk(p, ks, a, b, c, ro, was, now);
    KernelsServed(p, ks, a, b, c, ro, was, now, k);
    Together(p);
  }

  lemma {:induction false} CodeShows(p: Pair, ks: seq<Kernel>, a: Front, b: Back, c: Back, ro: Bytes, was: Bytes,
                                     now: Bytes, k: nat)
    requires Made(p, ks, a, b, c, ro, was, now) && k < |ks| && |ks[k].code| > 0
    ensures was != []
  {
    hide Both, FileOf, Start, CodeBytes, Laid, Seen, Shifted;
    CodeInText(ks, k);
  }

  lemma {:induction false} Together(p: Pair)
    requires p.Indexed() && OnlyText(p.o, p.t) && OnlyText(p.n, p.u) && IsFirst(p.o, p.t, p.f)
    requires HeaderSame(p.o.data, p.n.data) && p.n.shoff % 8 == 0
    requires TextHeaderOk(p) && SectionsOk(p) && PlacementOk(p) && PhdrsOk(p)
    requires TableAtEnd(p.o) && TableAtEnd(p.n) && HeadSame(p.o, p.n, p.OldEnd())
    requires TailOk(Payload(p.o, p.Ot()), Payload(p.n, p.Nt()), p.Ot().size, p.Nt().size, p.Nt().addr)
    requires GapsZero(p) && TablesOk(p) && PostSame(p) && p.n.shoff - p.o.shoff == p.FileShift()
    requires forall i :: 0 <= i < |p.o.sections| && p.o.sections[i].IsSymbolTable() ==> DynamicOk(p, i)
    requires KernelsOk(p)
    ensures Passes(p)
  {
    hide OnlyText, IsFirst, HeaderSame, TextHeaderOk, SectionsOk, PlacementOk, PhdrsOk, TableAtEnd, HeadSame, TailOk;
    hide GapsZero, TablesOk, PostSame, DynamicOk, KernelsOk, Payload;
  }

  /** What every accepted reading of the pair has passed. */
  lemma {:induction false} PassesSome(q: Pair)
    requires Passes(q)
    ensures q.Indexed() && TablesOk(q) && KernelsOk(q) && OnlyText(q.o, q.t) && OnlyText(q.n, q.u)
    ensures TailOk(Payload(q.o, q.Ot()), Payload(q.n, q.Nt()), q.Ot().size, q.Nt().size, q.Nt().addr)
    ensures forall i :: 0 <= i < |q.o.sections| && q.o.sections[i].IsSymbolTable() ==> DynamicOk(q, i)
  {
    hide OnlyText, IsFirst, HeaderSame, TextHeaderOk, SectionsOk, PlacementOk, PhdrsOk, TableAtEnd, HeadSame, TailOk;
    hide GapsZero, TablesOk, PostSame, DynamicOk, KernelsOk, Payload;
  }

  /** A wrong tail fails the tail check, whatever indices are tried. */
  lemma {:induction false} WrongTail(p: Pair, q: Pair, ks: seq<Kernel>, a: Front, b: Back, c: Back, ro: Bytes,
                                     was: Bytes, now: Bytes, tail: Tail)
    requires Twins(p, ks, a, b, c, ro, was, now) && q.o == p.o && q.n == p.n
    requires FillFits(tail) && now == Tailed(was, tail) && !RightTail(was, tail)
    requires q.Indexed() && OnlyText(q.o, q.t) && OnlyText(q.n, q.u)
    ensures !TailOk(Payload(q.o, q.Ot()), Payload(q.n, q.Nt()), q.Ot().size, q.Nt().size, q.Nt().addr)
  {
    hide Twins, TailOk, Payload, RightTail, Tailed, OnlyText;
    TextOk(p, ks, a, b, c, ro, was, now, tail);
    TextsFound(p, ks, a, b, c, ro, was, now);
    OneText(p.o, p.t, q.t);
    OneText(p.n, p.u, q.u);
  }

  /** A wrong tail, no code at all, or a kernel that reads as `_DYNAMIC`: some check fails. */
  lemma {:induction false} SomeFails(p: Pair, q: Pair, ks: seq<Kernel>, a: Front, b: Back, c: Back, ro: Bytes,
                                     was: Bytes, now: Bytes, tail: Tail)
    requires Twins(p, ks, a, b, c, ro, was, now) && q.o == p.o && q.n == p.n
    requires FillFits(tail) && now == Tailed(was, tail)
    requires HasCode(ks) && RightTail(was, tail) ==> NamedDynamic(ks)
    ensures !Passes(q)
  {
    hide Twins, Passes, DynamicOk, TablesOk, KernelsOk, ReadName, TailOk, Payload, RightTail, Tailed, OnlyText;
    if Passes(q) {
      PassesSome(q);
      if !RightTail(was, tail) {
        WrongTail(p, q, ks, a, b, c, ro, was, now, tail);
      } else if !HasCode(ks) {
        NothingToVerify(p, q, ks, a, b, c, ro, was, now);
      } else {
        var k: nat :| k < |ks| && ReadName(ks[k].name) == DYNAMIC_SYMBOL;
        SymtabIsTable(p, ks, a, b, c, ro, was, now);
        RightGrows(was, tail);
        ClashReported(p, q, ks, a, b, c, ro, was, now, k);
      }
    }
  }

  lemma {:induction false} SymtabIsTable(p: Pair, ks: seq<Kernel>, a: Front, b: Back, c: Back, ro: Bytes, was: Bytes,
                                         now: Bytes)
    requires Twins(p, ks, a, b, c, ro, was, now)
    ensures |p.o.sections| == 14 && p.o.sections[11].IsSymbolTable()
  {
    hide Twins, FrontOk, BackOk, Shifted, Sections, Phdrs;
    TwinsShaped(p, ks, a, b, c, ro, was, now);
    Positions(p, a, b, c, |was|, |now|);
  }

  lemma {:induction false} BacksShift(ks: seq<Kernel>, tail: Tail)
    requires FillFits(tail)
    ensures Shifted(BackOfKernels(ks, Absent), BackOfKernels(ks, tail))
  {
    hide FrontOf, TextBytes, Dynstr, SegmentStart, AlignSkew, Align, PagePadding;
    UniformShift(FrontOfKernels(ks), |ks|, |TextBytes(ks, Absent)|, |TextBytes(ks, tail)|);
    BackFacts(FrontOfKernels(ks), |ks|, |TextBytes(ks, Absent)|);
    BackFacts(FrontOfKernels(ks), |ks|, |TextBytes(ks, tail)|);
  }

  lemma {:induction false} OffsetsFit(ks: seq<Kernel>, a: Front, b: Back, l: nat)
    requires Packable(ks, a, b, l)
    ensures forall k :: 0 <= k < |ks| ==> OffsetFits(ks, a, k)
  {
    hide Fits, EntryRecords, SectionRecords, HeaderRecord, PhdrRecord, DynamicRecords, Phdrs, Sections, OffsetFits;
  }

  lemma {:induction false} WhatIsWritten(ks: seq<Kernel>, tail: Tail)
    requires Usable(ks) && ElfBytes(ks, tail).Some?
    ensures FillFits(tail)
    ensures var a, b, text := FrontOfKernels(ks), BackOfKernels(ks, tail), TextBytes(ks, tail);
      && CanWrite(ks, a, b, text) && Packable(ks, a, b, |text|) && ElfBytes(ks, tail).value == FileOf(ks, a, b, text)
  {
    hide FrontOfKernels, BackOfKernels, TextBytes, Usable, Packable, Laid, Written, Chunks;
    LaidOut(ks, tail);
  }

  /** One written object as the reader sees it. */
  lemma {:induction false} OneObject(ks: seq<Kernel>, a: Front, b: Back, text: Bytes, ro: Bytes) returns (e: Elf)
    requires CanWrite(ks, a, b, text) && Usable(ks) && Packable(ks, a, b, |text|)
    requires (forall k :: 0 <= k < |ks| ==> OffsetFits(ks, a, k)) && ro == Rodata(ks, a, |ks|)
    ensures ParseElf(FileOf(ks, a, b, text)) == Some(e) && e.data == FileOf(ks, a, b, text)
    ensures Laid(ks, a, b, |text|) && Seen(e, ks, a, b, ro, text)
  {
    hide Usable, Packable, Laid, Reads, Seen, Written, Chunks, Rodata, OffsetFits, ParsedAs, ParseElf;
    ReadsBack(ks, a, b, text);
    e := ParsedAs(FileOf(ks, a, b, text), a, b, |text|);
    ParsedData(FileOf(ks, a, b, text), a, b, |text|);
    ReadsSeen(e, ks, a, b, ro, text);
  }

  lemma Texts(ks: seq<Kernel>, tail: Tail)
    requires FillFits(tail)
    ensures TextBytes(ks, Absent) == CodeBytes(ks, |ks|) && TextBytes(ks, tail) == Tailed(CodeBytes(ks, |ks|), tail)
    ensures Extends(TextBytes(ks, Absent), TextBytes(ks, tail))
  {
    hide CodeBytes;
  }

  /** The two written objects parse to a made pair. */
  lemma {:induction false} PairIsMade(ks: seq<Kernel>, tail: Tail)
    returns (p: Pair, a: Front, b: Back, c: Back, ro: Bytes, was: Bytes, now: Bytes)
    requires Usable(ks) && ElfBytes(ks, Absent).Some? && ElfBytes(ks, tail).Some?
    ensures ParseElf(ElfBytes(ks, Absent).value) == Some(p.o) && ParseElf(ElfBytes(ks, tail).value) == Some(p.n)
    ensures Made(p, ks, a, b, c, ro, was, now) && FillFits(tail)
    ensures was == CodeBytes(ks, |ks|) && now == Tailed(was, tail)
  {
    hide FrontOfKernels, BackOfKernels, TextBytes, Usable, Packable, CanWrite, Laid, Seen, FileOf, Rodata, OffsetFits;
    hide CodeBytes, Shifted, ParseElf, ElfBytes, Tailed, Extends, FillFits;
    WhatIsWritten(ks, Absent);
    WhatIsWritten(ks, tail);
    a, b, c := FrontOfKernels(ks), BackOfKernels(ks, Absent), BackOfKernels(ks, tail);
    was, now := TextBytes(ks, Absent), TextBytes(ks, tail);
    Texts(ks, tail);
    BacksShift(ks, tail);
    OffsetsFit(ks, a, b, |was|);
    ro := Rodata(ks, a, |ks|);
    var o := OneObject(ks, a, b, was, ro);
    var n := OneObject(ks, a, c, now, ro);
    p := Pair(o, n, 7, 7, 8);
  }

  lemma ParsedData(data: Bytes, a: Front, b: Back, l: nat)
    ensures ParsedAs(data, a, b, l).data == data
  {
    hide Phdrs, Sections;
  }

  lemma {:induction false} Served(p: Pair, ks: seq<Kernel>, a: Front, b: Back, c: Back, ro: Bytes, was: Bytes,
                                  now: Bytes, tail: Tail)
    requires Made(p, ks, a, b, c, ro, was, now) && HasCode(ks) && !NamedDynamic(ks)
    requires FillFits(tail) && now == Tailed(was, tail) && RightTail(was, tail)
    ensures Accepts(p.o, p.n)
  {
    hide Made, Passes, NamedDynamic, RightTail, Tailed;
    var k: nat :| k < |ks| && |ks[k].code| > 0;
    AllPass(p, ks, a, b, c, ro, was, now, tail, k);
  }

  lemma {:induction false} Refused(p: Pair, ks: seq<Kernel>, a: Front, b: Back, c: Back, ro: Bytes, was: Bytes,
                                   now: Bytes, tail: Tail)
    requires Twins(p, ks, a, b, c, ro, was, now) && FillFits(tail) && now == Tailed(was, tail)
    requires HasCode(ks) && RightTail(was, tail) ==> NamedDynamic(ks)
    ensures !Accepts(p.o, p.n)
  {
    hide Twins, Passes, NamedDynamic, HasCode, RightTail, Tailed;
    forall q: Pair | q.o == p.o && q.n == p.n
      ensures !Passes(q)
    {
      SomeFails(p, q, ks, a, b, c, ro, was, now, tail);
    }
  }

  /** For every list of kernels and every tail: the untailed and the tailed object parse, and the checker
      accepts the tailed one exactly if its tail is the right one, some kernel has code, and none reads as
      `_DYNAMIC`. */
  lemma {:induction false} SynthesisAccepted(ks: seq<Kernel>, tail: Tail)
    requires Usable(ks) && ElfBytes(ks, Absent).Some? && ElfBytes(ks, tail).Some?
    ensures var o, n := ParseElf(ElfBytes(ks, Absent).value), ParseElf(ElfBytes(ks, tail).value);
      && o.Some? && n.Some?
      && (Accepts(o.value, n.value) <==> RightTail(CodeBytes(ks, |ks|), tail) && HasCode(ks) && !NamedDynamic(ks))
  {
    hide Usable, ElfBytes, ParseElf, Made, Passes, NamedDynamic, Both, Twins, CanWrite, FileOf, Packable, CodeBytes;
    hide Tailed, RightTail, FillFits;
    var p, a, b, c, ro, was, now := PairIsMade(ks, tail);
    MadeParts(p, ks, a, b, c, ro, was, now);
    hide HasCode, Accepts;
    if RightTail(was, tail) && HasCode(ks) && !NamedDynamic(ks) {
      Served(p, ks, a, b, c, ro, was, now, tail);
    } else {
      Refused(p, ks, a, b, c, ro, was, now, tail);
    }
  }
}
