/** The bytes of the synthetic code objects of scripts/check-pm-code-end.py: what _synth_elf writes
    for a list of kernels, without a code-end tail or with any. */
module SynthBytes {
  import opened Wrappers
  import opened Bytes
  import opened ElfFormat
  import opened CodeEnd
  import opened CodeEndSynth
  import opened Records

  /** Symbol name as encoded bytes, machine code, and kernel descriptor. */
  datatype Kernel = Kernel(name: Bytes, code: Bytes, desc: Bytes)

  /** Descriptors of 64 bytes, and whole-dword code before the last kernel: after any other code the
      padding loop never ends. */
  predicate Usable(ks: seq<Kernel>) {
    && (forall i :: 0 <= i < |ks| ==> |ks[i].desc| == 64)
    && (forall i :: 0 <= i < |ks| - 1 ==> |ks[i].code| % 4 == 0)
  }

  /** The tail parameters: words after the alignment, and the word that fills the alignment. */
  datatype Tail = Absent | Present(dwords: int, fill: int)

  /** struct.pack accepts the fill word. */
  predicate FillFits(tail: Tail) {
    tail.Present? ==> 0 <= tail.fill < Limit(4)
  }

  const DEFAULT_TAIL := Present(96, CODE_END)

  // ---- .text ----

  const NOP: nat := 0xBF800000
  const CODE_END: nat := 0xBF9F0000

  lemma WordFits()
    ensures NOP < Limit(4) && CODE_END < Limit(4)
  {
    Limits();
  }

  function Words(w: nat, n: nat): (b: Bytes)
    requires w < Limit(4)
    ensures |b| == 4 * n
  {
    if n == 0 then [] else Words(w, n - 1) + Pack(w, 4)
  }

  lemma {:induction false} WordsJoin(w: nat, m: nat, n: nat)
    requires w < Limit(4)
    ensures Words(w, m) + Words(w, n) == Words(w, m + n)
  {
    if n > 0 {
      WordsJoin(w, m, n - 1);
      assert Words(w, m) + (Words(w, n - 1) + Pack(w, 4)) == Words(w, m) + Words(w, n - 1) + Pack(w, 4);
    }
  }

  lemma {:induction false} WordAt(w: nat, n: nat, i: nat)
    requires w < Limit(4) && i < n
    ensures At(Words(w, n), 4 * i, Pack(w, 4))
  {
    if i == n - 1 {
      Joined(Words(w, n - 1), Pack(w, 4));
    } else {
      WordAt(w, n - 1, i);
      Longer(Words(w, n - 1), Pack(w, 4), 4 * i, Pack(w, 4));
    }
  }

  /** NOP words up to the next 256-byte boundary. */
  function Padded(text: Bytes): (r: Bytes)
    ensures |text| <= |r| && r[..|text|] == text
    ensures |text| % 4 == 0 ==> |r| % 256 == 0 && |r| == Align(|text|, 256)
  {
    WordFits();
    text + Words(NOP, (256 - |text| % 256) % 256 / 4)
  }

  lemma SumDwords(x: nat, y: nat)
    requires x % 256 == 0 && y % 4 == 0
    ensures (x + y) % 4 == 0
  {
    assert x == 4 * (64 * (x / 256));
  }

  /** .text after the first m kernels. */
  function CodeBytes(ks: seq<Kernel>, m: nat): (text: Bytes)
    requires m <= |ks|
  {
    if m == 0 then [] else Padded(CodeBytes(ks, m - 1)) + ks[m - 1].code
  }

  /** Where kernel k starts in .text. */
  function Start(ks: seq<Kernel>, k: nat): (n: nat)
    requires k < |ks|
  {
    |Padded(CodeBytes(ks, k))|
  }

  /** Fill words up to a cache line as far as whole words go, then the code-end words. */
  function Tailed(text: Bytes, tail: Tail): (r: Bytes)
    requires FillFits(tail)
    ensures |text| <= |r| && r[..|text|] == text
  {
    WordFits();
    if tail.Absent? then text
    else text + Words(tail.fill, AlignBytes(|text|) / 4) + Words(CODE_END, if tail.dwords < 0 then 0 else tail.dwords)
  }

  function TextBytes(ks: seq<Kernel>, tail: Tail): (text: Bytes)
    requires FillFits(tail)
  {
    Tailed(CodeBytes(ks, |ks|), tail)
  }

  // ---- names ----

  function Ascii(s: string): (b: Bytes)
    requires forall i :: 0 <= i < |s| ==> s[i] as int < 128
    ensures |b| == |s| && forall i :: 0 <= i < |s| ==> b[i] == s[i] as int
  {
    seq(|s|, i requires 0 <= i < |s| => s[i] as int)
  }

  /** The first m names, each followed by a zero byte. */
  function Strings(names: seq<Bytes>, m: nat): (b: Bytes)
    requires m <= |names|
  {
    if m == 0 then [] else Strings(names, m - 1) + names[m - 1] + [0]
  }

  /** Symbol i: even for the kernel, odd for its descriptor. */
  function NameOf(ks: seq<Kernel>, i: nat): (b: Bytes)
    requires i < 2 * |ks|
  {
    ks[i / 2].name + if i % 2 == 1 then Ascii(".kd") else []
  }

  /** The names of .dynstr; the first is empty. */
  function Names(ks: seq<Kernel>): (names: seq<Bytes>)
    ensures |names| == 2 * |ks| + 1
  {
    seq(2 * |ks| + 1, j requires 0 <= j < 2 * |ks| + 1 => if j == 0 then [] else NameOf(ks, j - 1))
  }

  function Dynstr(ks: seq<Kernel>): (b: Bytes) {
    Strings(Names(ks), 2 * |ks| + 1)
  }

  function AllNames(ks: seq<Kernel>): (names: seq<Bytes>)
    ensures |names| == 2 * |ks| + 2
  {
    Names(ks) + [Ascii("_DYNAMIC")]
  }

  function Strtab(ks: seq<Kernel>): (b: Bytes) {
    Strings(AllNames(ks), 2 * |ks| + 2)
  }

  function SectionText(i: nat): (s: string)
    requires i < 14
    ensures forall k :: 0 <= k < |s| ==> 0 < s[k] as int < 128
  {
    if i == 0 then ""
    else if i == 1 then ".note"
    else if i == 2 then ".dynsym"
    else if i == 3 then ".gnu.hash"
    else if i == 4 then ".hash"
    else if i == 5 then ".dynstr"
    else if i == 6 then ".rodata"
    else if i == 7 then ".text"
    else if i == 8 then ".dynamic"
    else if i == 9 then ".relro_padding"
    else if i == 10 then ".comment"
    else if i == 11 then ".symtab"
    else if i == 12 then ".shstrtab"
    else ".strtab"
  }

  function SectionNames(): (names: seq<Bytes>)
    ensures |names| == 14 && forall i :: 0 <= i < 14 ==> names[i] == Ascii(SectionText(i))
  {
    seq(14, i requires 0 <= i < 14 => Ascii(SectionText(i)))
  }

  function Shstrtab(): (b: Bytes) {
    Strings(SectionNames(), 14)
  }

  // ---- records ----

  const NULL_ENTRY := Entry(0, 0, 0, 0, 0, 0)

  function FrontOfKernels(ks: seq<Kernel>): (a: Front) {
    FrontOf(|ks|, |Dynstr(ks)|)
  }

  function BackOfKernels(ks: seq<Kernel>, tail: Tail): (b: Back)
    requires FillFits(tail)
  {
    BackOf(FrontOfKernels(ks), |ks|, |TextBytes(ks, tail)|)
  }

  /** Address of descriptor k. */
  function DescriptorAddr(a: Front, k: nat): (n: nat) {
    a.rodataOff + 64 * k
  }

  function EntryOf(ks: seq<Kernel>, a: Front, i: nat): (y: Entry)
    requires i < 2 * |ks|
  {
    if i % 2 == 1 then Entry(|Strings(Names(ks), i + 1)|, 0x11, 3, 6, DescriptorAddr(a, i / 2), 64)
    else Entry(|Strings(Names(ks), i + 1)|, 0x12, 3, 7, a.textAddr + Start(ks, i / 2), |ks[i / 2].code|)
  }

  function DynEntries(ks: seq<Kernel>, a: Front): (ys: seq<Entry>)
    ensures |ys| == 2 * |ks| + 1
  {
    seq(2 * |ks| + 1, j requires 0 <= j < 2 * |ks| + 1 => if j == 0 then NULL_ENTRY else EntryOf(ks, a, j - 1))
  }

  function DynamicEntry(ks: seq<Kernel>, dynAddr: nat): (y: Entry) {
    Entry(|Dynstr(ks)|, 0, 2, 8, dynAddr, 0)
  }

  function AllEntries(ks: seq<Kernel>, a: Front, dynAddr: nat): (ys: seq<Entry>)
    ensures |ys| == 2 * |ks| + 2
  {
    seq(2 * |ks| + 2, j requires 0 <= j < 2 * |ks| + 2 =>
      if j == 0 then NULL_ENTRY else if j == 1 then DynamicEntry(ks, dynAddr) else EntryOf(ks, a, j - 2))
  }

  const IDENT: Bytes := [0x7F, 0x45, 0x4C, 0x46, 2, 1, 1, 0x40, 4, 0, 0, 0, 0, 0, 0, 0]

  function HeaderRecord(shoff: nat): (r: Record) {
    [ Field(3, 2), Field(224, 2), Field(1, 4), Field(0, 8), Field(64, 8), Field(shoff, 8), Field(0x4E, 4), Field(64, 2),
      Field(56, 2), Field(8, 2), Field(64, 2), Field(14, 2), Field(12, 2) ]
  }

  function PairRecord(t: nat, v: nat): (r: Record) {
    [Field(t, 8), Field(v, 8)]
  }

  function DynamicRecords(a: Front): (rows: seq<Record>)
    ensures |rows| == 7
  {
    [ PairRecord(6, a.dynsymOff), PairRecord(11, 24), PairRecord(5, a.dynstrOff), PairRecord(10, a.dynstrLen),
      PairRecord(0x6FFFFEF5, a.gnuOff), PairRecord(4, a.hashOff), PairRecord(0, 0) ]
  }

  function SectionRecords(s: seq<Section>): (rows: seq<Record>)
    ensures |rows| == |s| && forall i :: 0 <= i < |s| ==> rows[i] == SectionRecord(s[i])
    ensures AllWide(rows, 64)
  {
    var rows := seq(|s|, i requires 0 <= i < |s| => SectionRecord(s[i]));
    assert AllWide(rows, 64) by {
      forall i | 0 <= i < |rows| ensures Width(rows[i], 0) == 64 { SectionWidth(s[i]); }
    }
    rows
  }

  // ---- .note, .rodata and .comment ----

  function Note(): (b: Bytes)
    ensures |b| == NOTE_LEN
  {
    Limits();
    Pack(7, 4) + Pack(16, 4) + Pack(32, 4) + Ascii("AMDGPU") + [0, 0]
    + [0, 1, 2, 3, 4, 5, 6, 7, 8, 9, 10, 11, 12, 13, 14, 15]
  }

  function Comment(): (b: Bytes)
    ensures |b| == 40
  {
    Ascii("hipfire peacemaker native-emit selftest") + [0]
  }

  /** The descriptor's offset to its kernel's code. */
  function CodeOffset(ks: seq<Kernel>, a: Front, k: nat): (d: int)
    requires k < |ks|
  {
    a.textAddr + Start(ks, k) - DescriptorAddr(a, k)
  }

  predicate OffsetFits(ks: seq<Kernel>, a: Front, k: nat)
    requires k < |ks|
  {
    0 <= CodeOffset(ks, a, k) < 0x8000_0000_0000_0000
  }

  function Rodata(ks: seq<Kernel>, a: Front, m: nat): (b: Bytes)
    requires Usable(ks) && m <= |ks| && forall k :: 0 <= k < |ks| ==> OffsetFits(ks, a, k)
    ensures |b| == 64 * m
  {
    if m == 0 then [] else
      Limits();
      assert OffsetFits(ks, a, m - 1);
      Rodata(ks, a, m - 1) + ks[m - 1].desc[..16] + Pack(CodeOffset(ks, a, m - 1), 8) + ks[m - 1].desc[24..]
  }

  lemma SlicePrefix(whole: Bytes, part: Bytes, rest: Bytes, lo: nat, hi: nat)
    requires whole == part + rest && lo <= hi <= |part|
    ensures whole[lo..hi] == part[lo..hi]
  {
  }

  lemma {:induction false} RodataMore(ks: seq<Kernel>, a: Front, m: nat) returns (rest: Bytes)
    requires Usable(ks) && m < |ks| && forall k :: 0 <= k < |ks| ==> OffsetFits(ks, a, k)
    ensures Rodata(ks, a, m + 1) == Rodata(ks, a, m) + rest
  {
    Limits();
    assert OffsetFits(ks, a, m);
    rest := ks[m].desc[..16] + Pack(CodeOffset(ks, a, m), 8) + ks[m].desc[24..];
    hide CodeOffset, Pack, OffsetFits;
  }

  lemma {:induction false} RodataKeeps(ks: seq<Kernel>, a: Front, k: nat, m: nat)
    requires Usable(ks) && k < m <= |ks| && forall k :: 0 <= k < |ks| ==> OffsetFits(ks, a, k)
    ensures Rodata(ks, a, m)[64 * k..64 * k + 64] == Rodata(ks, a, k + 1)[64 * k..64 * k + 64]
    decreases m
  {
    hide Rodata, OffsetFits, Usable;
    if k < m - 1 {
      RodataKeeps(ks, a, k, m - 1);
      var rest := RodataMore(ks, a, m - 1);
      SlicePrefix(Rodata(ks, a, m), Rodata(ks, a, m - 1), rest, 64 * k, 64 * k + 64);
    }
  }

  /** Descriptor k is the kernel's own, except for bytes 16 to 23, which lead from its address to the code. */
  lemma {:induction false} DescriptorLeads(ks: seq<Kernel>, a: Front, k: nat)
    requires Usable(ks) && k < |ks| && forall k :: 0 <= k < |ks| ==> OffsetFits(ks, a, k)
    ensures |ks[k].desc| == 64
    ensures var d := Rodata(ks, a, |ks|)[64 * k..64 * k + 64];
      && d[..16] == ks[k].desc[..16] && d[24..] == ks[k].desc[24..]
      && a.rodataOff + 64 * k + Unpack(d[16..24]) == a.textAddr + Start(ks, k)
  {
    RodataKeeps(ks, a, k, |ks|);
    DescriptorWritten(ks, a, k);
  }

  lemma {:induction false} DescriptorWritten(ks: seq<Kernel>, a: Front, k: nat)
    requires Usable(ks) && k < |ks| && forall k :: 0 <= k < |ks| ==> OffsetFits(ks, a, k)
    ensures |ks[k].desc| == 64
    ensures var d := Rodata(ks, a, k + 1)[64 * k..64 * k + 64];
      && d[..16] == ks[k].desc[..16] && d[24..] == ks[k].desc[24..]
      && a.rodataOff + 64 * k + Unpack(d[16..24]) == a.textAddr + Start(ks, k)
  {
    Limits();
    assert OffsetFits(ks, a, k);
    var head, v := Rodata(ks, a, k), Pack(CodeOffset(ks, a, k), 8);
    var tail := ks[k].desc[..16] + v + ks[k].desc[24..];
    assert Rodata(ks, a, k + 1) == head + tail && |head| == 64 * k && |tail| == 64;
    assert Rodata(ks, a, k + 1)[64 * k..64 * k + 64] == tail;
    assert tail[..16] == ks[k].desc[..16] && tail[16..24] == v && tail[24..] == ks[k].desc[24..];
    UnpackPack(CodeOffset(ks, a, k), 8);
  }

  // ---- the file ----

  /** No struct.pack call raises. */
  predicate Packable(ks: seq<Kernel>, a: Front, b: Back, textLen: nat) {
    && AllFit(EntryRecords(DynEntries(ks, a))) && AllFit(EntryRecords(AllEntries(ks, a, b.dynAddr)))
    && Fits(HeaderRecord(b.shoff)) && (forall i :: 0 <= i < 8 ==> Fits(PhdrRecord(Phdrs(a, b, textLen)[i])))
    && AllFit(SectionRecords(Sections(a, b, textLen))) && AllFit(DynamicRecords(a))
    && forall k :: 0 <= k < |ks| ==> OffsetFits(ks, a, k)
  }

  /** The writes before .text, in order. */
  function HeadChunk(ks: seq<Kernel>, a: Front, b: Back, textLen: nat, j: nat): (c: Chunk)
    requires Usable(ks) && Packable(ks, a, b, textLen) && j < 15
  {
    if j == 0 then Chunk(0, IDENT + PackRecord(HeaderRecord(b.shoff)))
    else if j < 9 then Chunk(64 + 56 * (j - 1), PackRecord(PhdrRecord(Phdrs(a, b, textLen)[j - 1])))
    else if j == 9 then Chunk(NOTE_OFF, Note())
    else if j == 10 then Chunk(a.dynsymOff, Table(EntryRecords(DynEntries(ks, a)), 2 * |ks| + 1))
    else if j == 11 then Chunk(a.gnuOff, Fill(a.gnuSize, 0xA5))
    else if j == 12 then Chunk(a.hashOff, Fill(a.hashSize, 0x5A))
    else if j == 13 then Chunk(a.dynstrOff, Dynstr(ks))
    else Chunk(a.rodataOff, Rodata(ks, a, |ks|))
  }

  /** The writes after .text, in order. */
  function BackChunk(ks: seq<Kernel>, a: Front, b: Back, textLen: nat, j: nat): (c: Chunk)
    requires Usable(ks) && Packable(ks, a, b, textLen) && 16 <= j < 22
  {
    if j == 16 then Chunk(b.dynOff, Table(DynamicRecords(a), 7))
    else if j == 17 then Chunk(b.commentOff, Comment())
    else if j == 18 then Chunk(b.symtabOff, Table(EntryRecords(AllEntries(ks, a, b.dynAddr)), 2 * |ks| + 2))
    else if j == 19 then Chunk(b.shstrOff, Shstrtab())
    else if j == 20 then Chunk(b.strtabOff, Strtab(ks))
    else Chunk(b.shoff, Table(SectionRecords(Sections(a, b, textLen)), 14))
  }

  function ChunkOf(ks: seq<Kernel>, a: Front, b: Back, text: Bytes, j: nat): (c: Chunk)
    requires Usable(ks) && Packable(ks, a, b, |text|) && j < 22
  {
    if j < 15 then HeadChunk(ks, a, b, |text|, j)
    else if j == 15 then Chunk(a.textOff, text)
    else BackChunk(ks, a, b, |text|, j)
  }

  function Chunks(ks: seq<Kernel>, a: Front, b: Back, text: Bytes): (cs: seq<Chunk>)
    requires Usable(ks) && Packable(ks, a, b, |text|)
    ensures |cs| == 22 && forall j :: 0 <= j < 22 ==> cs[j] == ChunkOf(ks, a, b, text, j)
  {
    seq(22, j requires 0 <= j < 22 => ChunkOf(ks, a, b, text, j))
  }

  predicate Writable(ks: seq<Kernel>, tail: Tail) {
    FillFits(tail) && Packable(ks, FrontOfKernels(ks), BackOfKernels(ks, tail), |TextBytes(ks, tail)|)
  }

  /** _synth_elf; None where struct.pack raises because a field is too large. */
  function ElfBytes(ks: seq<Kernel>, tail: Tail): (r: Option<Bytes>)
    requires Usable(ks)
  {
    if Writable(ks, tail)
    then Some(Written(Chunks(ks, FrontOfKernels(ks), BackOfKernels(ks, tail), TextBytes(ks, tail)), 22))
    else None
  }
}
