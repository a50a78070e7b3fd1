/** Kernel lists that _synth_elf of scripts/check-pm-code-end.py writes: every single kernel of ordinary
    size, one whose object the checker accepts, and one named `_DYNAMIC` whose object it refuses. */
module SynthExamples {
  import opened Wrappers
  import opened Arithmetic
  import opened Bytes
  import opened ElfFormat
  import opened CodeEnd
  import opened CodeEndSynth
  import opened Records
  import opened SynthBytes
  import opened SynthParse
  import opened SynthSymbols
  import opened SynthAccepts
  import opened SynthWriter

  // ---- one kernel ----

  lemma {:induction false} OneNames(k: Kernel)
    ensures |Dynstr([k])| == 2 * |k.name| + 6
  {
    var names := Names([k]);
    assert |names[0]| == 0 && |names[1]| == |k.name| && |names[2]| == |k.name| + 3;
    assert |Strings(names, 0)| == 0;
    hide Strings, Names;
    StringsNext(names, 0);
    StringsNext(names, 1);
    StringsNext(names, 2);
  }

  lemma {:induction false} OneCode(k: Kernel)
    ensures CodeBytes([k], 1) == k.code && Start([k], 0) == 0
  {
    assert CodeBytes([k], 0) == [];
    assert Padded([]) == [];
  }

  /** Below 2^32 code-end words. */
  predicate ShortTail(tail: Tail) {
    FillFits(tail) && (tail.Present? ==> tail.dwords < WORD)
  }

  lemma {:induction false} TailSize(text: Bytes, tail: Tail)
    requires ShortTail(tail)
    ensures |Tailed(text, tail)| <= |text| + 128 + 4 * WORD
  {
    hide Words, AlignBytes;
  }

  lemma {:induction false} SegmentBelow(dot: nat, a: nat)
    requires a >= 1
    ensures SegmentStart(dot, a) < dot + 2 * PAGE + a
  {
    hide Align;
    AlignIs(dot, PAGE);
    AlignIs(Align(dot, PAGE) + dot % PAGE, a);
  }

  lemma {:induction false} FrontBelow(dynstrLen: nat)
    ensures var a := FrontOf(1, dynstrLen);
      && a.rodataOff <= a.roEnd <= a.textAddr < dynstrLen + 4 * PAGE && a.textOff < dynstrLen + 4 * PAGE
  {
    assert BitLength(0) == 0 && Two(0) == 1;
    hide Two, BitLength, SegmentStart, AlignSkew, Align;
    var a := FrontOf(1, dynstrLen);
    FrontFacts(1, dynstrLen);
    FrontSizes(1, dynstrLen);
    AlignIs(NOTE_OFF + NOTE_LEN, 8);
    AlignIs(a.dynsymOff + a.dynsymSize, 8);
    AlignIs(a.gnuOff + a.gnuSize, 4);
    AlignIs(a.dynstrOff + dynstrLen, 64);
    SegmentBelow(a.roEnd, 256);
    AlignSkewIs(a.roEnd, a.textAddr);
  }

  lemma {:induction false} BackBelow(a: Front, textLen: nat)
    ensures var b := BackOf(a, 1, textLen);
      b.relroAddr < a.textAddr + textLen + 3 * PAGE && b.shoff < a.textOff + textLen + a.dynstrLen + 2 * PAGE
  {
    hide SegmentStart, AlignSkew, Align, PagePadding;
    var b := BackOf(a, 1, textLen);
    BackFacts(a, 1, textLen);
    SegmentBelow(a.textAddr + textLen, 8);
    AlignSkewIs(a.textOff + textLen, b.dynAddr);
  }

  /** Names below 2^28 bytes and code below 2^48. */
  predicate Ordinary(k: Kernel) {
    |k.desc| == 64 && |k.name| < 0x1000_0000 && |k.code| < 0x1_0000_0000_0000
  }

  lemma {:induction false} OneIsSmall(k: Kernel, tail: Tail)
    requires Ordinary(k) && ShortTail(tail)
    ensures SmallEnough([k], FrontOfKernels([k]), BackOfKernels([k], tail))
  {
    hide FrontOf, BackOf, Dynstr, CodeBytes, Start, Tailed, FillFits;
    OneNames(k);
    OneCode(k);
    TailSize(k.code, tail);
    var a := FrontOfKernels([k]);
    FrontBelow(|Dynstr([k])|);
    FrontKeeps(1, |Dynstr([k])|);
    BackBelow(a, |TextBytes([k], tail)|);
  }

  lemma FrontKeeps(kernels: nat, dynstrLen: nat)
    ensures FrontOf(kernels, dynstrLen).dynstrLen == dynstrLen
  {
    hide Two, BitLength, SegmentStart, AlignSkew, Align;
  }

  lemma OneUsable(k: Kernel)
    requires Ordinary(k)
    ensures Usable([k])
  {
  }

  /** Every ordinary kernel on its own is written, with any short tail or none. */
  lemma {:induction false} OneWritable(k: Kernel, tail: Tail)
    requires Ordinary(k) && ShortTail(tail)
    ensures Usable([k]) && ElfBytes([k], tail).Some?
  {
    hide *;
    OneUsable(k);
    OneIsSmall(k, tail);
    FillOf(tail);
    WritableExactly([k], tail);
  }

  lemma FillOf(tail: Tail)
    requires ShortTail(tail)
    ensures FillFits(tail)
  {
  }

  // ---- accepted and refused ----

  /** A kernel of one zero word with a zero descriptor. */
  function Small(name: Bytes): (k: Kernel)
    ensures |name| < 0x1000_0000 ==> Ordinary(k)
  {
    Kernel(name, [0, 0, 0, 0], Fill(64, 0))
  }

  lemma DefaultShort()
    ensures ShortTail(DEFAULT_TAIL) && ShortTail(Absent)
  {
    Limits();
  }

  lemma {:induction false} SmallTail(name: Bytes)
    ensures RightTail(CodeBytes([Small(name)], 1), DEFAULT_TAIL) && HasCode([Small(name)])
  {
    OneCode(Small(name));
    hide CodeBytes;
    assert |[Small(name)][0].code| > 0;
  }

  /** One small kernel: both objects are written and parse, and the checker accepts exactly if the name
      does not read as `_DYNAMIC`. */
  lemma {:induction false} SmallAccepted(name: Bytes)
    requires |name| < 0x1000_0000
    ensures var ks := [Small(name)];
      && Usable(ks) && HasCode(ks) && ElfBytes(ks, Absent).Some? && ElfBytes(ks, DEFAULT_TAIL).Some?
      && var o, n := ParseElf(ElfBytes(ks, Absent).value), ParseElf(ElfBytes(ks, DEFAULT_TAIL).value);
      && o.Some? && n.Some? && (Accepts(o.value, n.value) <==> ReadName(name) != DYNAMIC_SYMBOL)
  {
    var ks := [Small(name)];
    DefaultShort();
    assert Ordinary(Small(name)) && Small(name).name == name;
    hide Small, Usable, HasCode, ElfBytes, ParseElf, Accepts, RightTail, CodeBytes, ReadName, ShortTail, Ordinary;
    hide NamedDynamic;
    OneWritable(Small(name), Absent);
    OneWritable(Small(name), DEFAULT_TAIL);
    SmallTail(name);
    SynthesisAccepted(ks, DEFAULT_TAIL);
    OneNamed(Small(name));
  }

  lemma OneNamed(k: Kernel)
    ensures NamedDynamic([k]) <==> ReadName(k.name) == DYNAMIC_SYMBOL
  {
    hide ReadName;
    assert [k][0] == k;
  }

  /** The accept case at one kernel. */
  lemma {:induction false} PlainAccepted()
    ensures var ks := [Small(Ascii("k"))];
      && Usable(ks) && ElfBytes(ks, Absent).Some? && ElfBytes(ks, DEFAULT_TAIL).Some?
      && var o, n := ParseElf(ElfBytes(ks, Absent).value), ParseElf(ElfBytes(ks, DEFAULT_TAIL).value);
      && o.Some? && n.Some? && Accepts(o.value, n.value)
  {
    hide Small, Usable, HasCode, ElfBytes, ParseElf, Accepts, ReadName, Ascii;
    ReadAscii("k");
    assert |ReadName(Ascii("k"))| == 1;
    SmallAccepted(Ascii("k"));
  }

  /** The clash: a kernel with code that the checker refuses because of its name alone. */
  lemma {:induction false} ClashRefused()
    ensures var ks := [Small(Ascii("_DYNAMIC"))];
      && Usable(ks) && HasCode(ks) && ElfBytes(ks, Absent).Some? && ElfBytes(ks, DEFAULT_TAIL).Some?
      && var o, n := ParseElf(ElfBytes(ks, Absent).value), ParseElf(ElfBytes(ks, DEFAULT_TAIL).value);
      && o.Some? && n.Some? && !Accepts(o.value, n.value)
  {
    hide Small, Usable, HasCode, ElfBytes, ParseElf, Accepts, ReadName, Ascii;
    KnownNames();
    SmallAccepted(Ascii("_DYNAMIC"));
  }
}
