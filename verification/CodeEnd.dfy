/** The checker of scripts/check-pm-code-end.py: NEW is OLD plus the code-end tail of `.text` and
    the fields that growing `.text` forces. Each check is a predicate; the methods below run the
    checks as the script does and collect errors. */
module CodeEnd {
  import opened Wrappers
  import opened Bytes
  import opened ElfFormat

  const PAGE: nat := 0x1000

  // ---- placement arithmetic ----

  function Align(x: nat, a: nat): (y: nat) {
    if a <= 1 then x else (x + a - 1) / a * a
  }

  /** Smallest y >= x on the page offset of skew. */
  function AlignSkew(x: nat, skew: nat): (y: nat) {
    var base := x - x % PAGE + skew % PAGE;
    if base >= x then base else base + PAGE
  }

  /** Address of a section that starts a new loadable segment after dot. */
  function SegmentStart(dot: nat, align: nat): (y: nat) {
    Align(Align(dot, PAGE) + dot % PAGE, align)
  }

  // ---- the text section and the classes of the others ----

  const TEXT: Name := [0x2E, 0x74, 0x65, 0x78, 0x74]

  predicate IsText(e: Elf, s: Section) {
    SectionName(e, s) == TEXT && s.Exec()
  }

  predicate OnlyText(e: Elf, t: nat) {
    && t < |e.sections| && IsText(e, e.sections[t])
    && forall i :: 0 <= i < |e.sections| && i != t ==> !IsText(e, e.sections[i])
  }

  datatype Class = Null | Text | Pre | Post | Overlap

  function ClassOf(o: Elf, t: nat, i: nat): (c: Class)
    requires t < |o.sections| && i < |o.sections|
  {
    var s, ot := o.sections[i], o.sections[t];
    if s.IsNull() then Null
    else if i == t then Text
    else if s.Nobits() then if s.Alloc() && s.addr >= ot.addr + ot.size then Post else Pre
    else if s.offset >= ot.offset + ot.size then Post
    else if s.offset + s.size <= ot.offset then Pre
    else Overlap
  }

  predicate PostFile(o: Elf, t: nat, i: nat)
    requires t < |o.sections| && i < |o.sections|
  {
    ClassOf(o, t, i) == Post && !o.sections[i].Nobits()
  }

  predicate PostAlloc(o: Elf, t: nat, i: nat)
    requires t < |o.sections| && i < |o.sections|
  {
    ClassOf(o, t, i) == Post && o.sections[i].Alloc()
  }

  /** The file-resident section after .text with the smallest offset, the first of several. */
  predicate IsFirst(o: Elf, t: nat, f: nat)
    requires t < |o.sections|
  {
    && f < |o.sections| && PostFile(o, t, f)
    && forall i :: 0 <= i < |o.sections| && PostFile(o, t, i) ==>
        o.sections[f].offset <= o.sections[i].offset && (i < f ==> o.sections[f].offset < o.sections[i].offset)
  }

  /** The indices are determined by the file. */
  lemma {:induction false} OneFirst(o: Elf, t: nat, f: nat, g: nat)
    requires t < |o.sections| && IsFirst(o, t, f) && IsFirst(o, t, g)
    ensures f == g
  {
    hide PostFile;
  }

  lemma {:induction false} OneText(o: Elf, t: nat, u: nat)
    requires OnlyText(o, t) && OnlyText(o, u)
    ensures t == u
  {
    hide IsText;
  }

  /** Index of the first allocated section after .text, or the section count. */
  function FirstAlloc(o: Elf, t: nat, i: nat): (k: nat)
    requires t < |o.sections| && i <= |o.sections|
    ensures i <= k <= |o.sections| && (k < |o.sections| ==> PostAlloc(o, t, k))
    ensures forall j :: i <= j < k ==> !PostAlloc(o, t, j)
    decreases |o.sections| - i
  {
    if i == |o.sections| || PostAlloc(o, t, i) then i else FirstAlloc(o, t, i + 1)
  }

  /** The two files under comparison, with the indices found so far: .text in each, and the first
      file-resident section after .text. */
  datatype Pair = Pair(o: Elf, n: Elf, t: nat, u: nat, f: nat) {
    predicate Indexed() {
      && |o.sections| == |n.sections| && t < |o.sections| && u < |o.sections| && f < |o.sections|
    }
    function Ot(): Section requires Indexed() { o.sections[t] }
    function Nt(): Section requires Indexed() { n.sections[u] }
    function Fo(): Section requires Indexed() { o.sections[f] }
    function Fn(): Section requires Indexed() { n.sections[f] }
    function OldEnd(): nat requires Indexed() { Ot().offset + Ot().size }
    function NewEnd(): nat requires Indexed() { Nt().offset + Nt().size }
    function FileShift(): int requires Indexed() { Fn().offset - Fo().offset }
    function AddrShift(): int requires Indexed() {
      var k := FirstAlloc(o, t, 0);
      if k < |o.sections| then n.sections[k].addr - o.sections[k].addr else 0
    }
  }

  // ---- headers ----

  /** The first 64 bytes agree outside e_shoff. */
  predicate HeaderSame(a: Bytes, b: Bytes) {
    |a| >= 64 && |b| >= 64 && forall k :: 0 <= k < 64 && !(0x28 <= k < 0x30) ==> a[k] == b[k]
  }

  /** All header fields but address, offset and size. */
  predicate SameKind(s: Section, n: Section) {
    && s.nameIdx == n.nameIdx && s.kind == n.kind && s.flags == n.flags && s.link == n.link
    && s.info == n.info && s.align == n.align && s.entsize == n.entsize
  }

  predicate TextHeaderOk(p: Pair)
    requires p.Indexed()
  {
    p.Ot().offset == p.Nt().offset && p.Ot().addr == p.Nt().addr && SameKind(p.Ot(), p.Nt())
  }

  predicate PostOk(s: Section, n: Section, fileShift: int, addrShift: int) {
    && n.offset - s.offset == fileShift
    && (if s.Alloc() then n.addr - s.addr == addrShift else n.addr == s.addr)
    && (if s.Nobits() then ((s.addr + s.size) % PAGE == 0 ==> (n.addr + n.size) % PAGE == 0) && n.size < PAGE
        else s.size == n.size)
  }

  predicate SectionOk(p: Pair, i: nat)
    requires p.Indexed() && i < |p.o.sections|
  {
    var s, n := p.o.sections[i], p.n.sections[i];
    SameKind(s, n) &&
    match ClassOf(p.o, p.t, i)
    case Null => s == n
    case Pre => s.addr == n.addr && s.offset == n.offset && s.size == n.size
    case Post => PostOk(s, n, p.FileShift(), p.AddrShift())
    case Text => true
    case Overlap => false
  }

  predicate SectionsOk(p: Pair)
    requires p.Indexed()
  {
    forall i :: 0 <= i < |p.o.sections| ==> SectionOk(p, i)
  }

  /** OLD places the first section after .text by the segment-start rule. */
  predicate FollowsRule(p: Pair)
    requires p.Indexed()
  {
    p.Fo().Alloc() && p.Fo().addr == SegmentStart(p.Ot().addr + p.Ot().size, p.Fo().align)
  }

  predicate PlacementOk(p: Pair)
    requires p.Indexed()
  {
    && (FollowsRule(p) ==>
        && p.Fn().addr == SegmentStart(p.Ot().addr + p.Nt().size, p.Fo().align)
        && p.Fn().offset == AlignSkew(p.NewEnd(), p.Fn().addr))
    && p.Fn().offset >= p.NewEnd()
  }

  // ---- program headers ----

  const PT_LOAD: nat := 1
  const PT_GNU_RELRO: nat := 0x6474E552

  /** Total NOBITS size after .text over the first k sections, by the sizes of e's own headers. */
  function Relro(o: Elf, t: nat, e: Elf, k: nat): (n: nat)
    requires t < |o.sections| && |e.sections| == |o.sections| && k <= |o.sections|
  {
    if k == 0 then 0 else
      Relro(o, t, e, k - 1) + if ClassOf(o, t, k - 1) == Post && o.sections[k - 1].Nobits() then
        e.sections[k - 1].size else 0
  }

  /** The new header q is the old header h with only the forced fields changed. */
  predicate PhdrOk(p: Pair, h: Phdr, q: Phdr)
    requires p.Indexed()
  {
    var ot, nt, fo, fn, d := p.Ot(), p.Nt(), p.Fo(), p.Fn(), p.AddrShift();
    q.kind == h.kind && q.flags == h.flags && q.align == h.align &&
    if h.offset == ot.offset && h.vaddr == ot.addr && h.filesz == ot.size then
      && q.offset == h.offset && q.vaddr == h.vaddr && q.paddr == h.paddr
      && q.filesz == nt.size + (h.memsz - h.filesz) && q.memsz == nt.size + (h.memsz - h.filesz)
    else if h.offset == fo.offset && (!fo.Alloc() || h.vaddr == fo.addr) then
      && q.offset == fn.offset && q.vaddr == h.vaddr + d && q.paddr == h.paddr + d && q.filesz == h.filesz
      && q.memsz == (if h.memsz - h.filesz == Relro(p.o, p.t, p.o, |p.o.sections|)
        && (h.kind == PT_LOAD || h.kind == PT_GNU_RELRO)
                     then h.filesz + Relro(p.o, p.t, p.n, |p.o.sections|) else h.memsz)
    else
      q == h
  }

  predicate LoadOk(q: Phdr) {
    q.kind == PT_LOAD ==> (q.align > 1 ==> q.offset % q.align == q.vaddr % q.align) && q.filesz <= q.memsz
  }

  predicate CoversText(q: Phdr, nt: Section) {
    q.kind == PT_LOAD && q.flags % 2 == 1 && q.vaddr <= nt.addr && nt.addr + nt.size <= q.vaddr + q.memsz
  }

  predicate PhdrsOk(p: Pair)
    requires p.Indexed()
  {
    && |p.o.phdrs| == |p.n.phdrs|
    && (forall i :: 0 <= i < |p.o.phdrs| ==> PhdrOk(p, p.o.phdrs[i], p.n.phdrs[i]))
    && (forall i :: 0 <= i < |p.n.phdrs| ==> LoadOk(p.n.phdrs[i]))
    && exists i :: 0 <= i < |p.n.phdrs| && CoversText(p.n.phdrs[i], p.Nt())
  }

  // ---- file layout ----

  /** The section header table follows every payload and ends the file. */
  predicate TableAtEnd(e: Elf) {
    && (forall i :: 0 <= i < |e.sections| && !e.sections[i].Nobits() ==>
      e.sections[i].offset + e.sections[i].size <= e.shoff)
    && |e.data| == e.shoff + 64 * e.shnum
  }

  predicate HeadMask(e: Elf, k: int) {
    0x28 <= k < 0x30 || e.phoff <= k < e.phoff + 56 * e.phnum
  }

  function HeadByte(e: Elf, k: nat): (b: byte)
    requires k < |e.data|
  {
    if HeadMask(e, k) then 0 else e.data[k]
  }

  /** Bytes before the end of the old .text agree outside e_shoff and the program headers. */
  predicate HeadSame(o: Elf, n: Elf, end: nat) {
    && |Slice(o.data, 0, end)| == |Slice(n.data, 0, end)|
    && forall k :: 0 <= k < |Slice(o.data, 0, end)| ==> HeadByte(o, k) == HeadByte(n, k)
  }

  // ---- the tail ----

  function AlignBytes(size: nat): (n: nat)
    ensures n < 128 && (size + n) % 128 == 0
  {
    (128 - size % 128) % 128
  }

  function TailLength(size: nat): (n: nat) {
    AlignBytes(size) + 4 * 96
  }

  predicate IsCodeEnd(b: Bytes) {
    |b| == 4 && Unpack(b) == 0xBF9F0000
  }

  /** New .text is old .text followed by alignment and 96 code-end words. */
  predicate TailOk(was: Bytes, now: Bytes, oldSize: nat, newSize: nat, newAddr: nat) {
    && newSize >= oldSize && |now| >= |was| && now[..|was|] == was
    && |now| - |was| == TailLength(oldSize) && AlignBytes(oldSize) % 4 == 0
    && newSize % 128 == 0 && (newAddr + newSize) % 128 == 0
    && forall w :: 0 <= w < (|now| - |was|) / 4 ==> IsCodeEnd(Word(now, |was|, w))
  }

  function Word(b: Bytes, base: nat, w: nat): (r: Bytes)
    requires base + 4 * w + 4 <= |b|
    ensures |r| == 4
  {
    b[base + 4 * w..base + 4 * w + 4]
  }

  predicate AllZero(b: Bytes) {
    forall k :: 0 <= k < |b| ==> b[k] == 0
  }

  predicate GapsZero(p: Pair)
    requires p.Indexed()
  {
    && AllZero(Slice(p.o.data, p.OldEnd(), p.Fo().offset))
    && AllZero(Slice(p.n.data, p.NewEnd(), p.Fn().offset))
  }

  // ---- symbols ----

  /** How far symbols of section number shndx move. */
  function Delta(p: Pair, shndx: nat): (d: int)
    requires p.Indexed()
  {
    if shndx < SHN_LORESERVE && shndx < |p.o.sections| && PostAlloc(p.o, p.t, shndx)
    then p.n.sections[shndx].addr - p.o.sections[shndx].addr else 0
  }

  predicate SymbolOk(p: Pair, a: Symbol, b: Symbol)
    requires p.Indexed()
  {
    && a.name == b.name && a.info == b.info && a.other == b.other && a.shndx == b.shndx && a.size == b.size
    && b.value == a.value + Delta(p, a.shndx)
  }

  predicate TableOk(p: Pair, i: nat)
    requires p.Indexed() && i < |p.o.sections|
  {
    var s, n := p.o.sections[i], p.n.sections[i];
    && s.link < |p.o.sections| && n.link < |p.n.sections| && SymbolCount(p.o, s) == SymbolCount(p.n, n)
    && forall j :: 0 <= j < SymbolCount(p.o, s) ==> SymbolOk(p, SymbolAt(p.o, s, j), SymbolAt(p.n, n, j))
  }

  predicate TablesOk(p: Pair)
    requires p.Indexed()
  {
    forall i :: 0 <= i < |p.o.sections| && p.o.sections[i].IsSymbolTable() ==> TableOk(p, i)
  }

  function SymbolSection(o: Elf, s: Section, j: nat): (shndx: nat)
    requires j < SymbolCount(o, s)
  {
    U(Payload(o, s), 24 * j + 6, 2)
  }

  /** Symbol j of table i is in a table after .text and its value moves. */
  predicate Moves(p: Pair, i: nat, j: nat): (m: bool)
    requires p.Indexed()
    ensures m ==> i < |p.o.sections|
  {
    && i < |p.o.sections| && p.o.sections[i].IsSymbolTable() && ClassOf(p.o, p.t, i) == Post
    && j < SymbolCount(p.o, p.o.sections[i]) && Delta(p, SymbolSection(p.o, p.o.sections[i], j)) != 0
  }

  /** pos is a value byte of a moving symbol, with tables where e has them. */
  ghost predicate SymbolMask(p: Pair, e: Elf, pos: int)
    requires p.Indexed() && |e.sections| == |p.o.sections|
  {
    exists i: nat, j: nat :: Moves(p, i, j) && ValueField(e, i, j) <= pos < ValueField(e, i, j) + 8
  }

  function ValueField(e: Elf, i: nat, j: nat): (pos: nat)
    requires i < |e.sections|
  {
    e.sections[i].offset + 24 * j + 8
  }

  ghost function PostByte(p: Pair, e: Elf, base: nat, k: nat): (b: byte)
    requires p.Indexed() && |e.sections| == |p.o.sections| && base + k < |e.data|
  {
    if SymbolMask(p, e, base + k) then 0 else e.data[base + k]
  }

  /** Bytes from the first later section to the section headers agree outside moving symbol values. */
  ghost predicate PostSame(p: Pair)
    requires p.Indexed()
  {
    var a, b := Slice(p.o.data, p.Fo().offset, p.o.shoff), Slice(p.n.data, p.Fn().offset, p.n.shoff);
    && |a| == |b| && (a != [] ==> p.Fo().offset + |a| <= |p.o.data| && p.Fn().offset + |b| <= |p.n.data|)
    && forall k :: 0 <= k < |a| ==> PostByte(p, p.o, p.Fo().offset, k) == PostByte(p, p.n, p.Fn().offset, k)
  }

  // ---- _DYNAMIC, kernels and descriptors ----

  const SYMTAB_NAME: Name := [0x2E, 0x73, 0x79, 0x6D, 0x74, 0x61, 0x62]
  const DYNSYM_NAME: Name := [0x2E, 0x64, 0x79, 0x6E, 0x73, 0x79, 0x6D]
  const DYNAMIC_NAME: Name := [0x2E, 0x64, 0x79, 0x6E, 0x61, 0x6D, 0x69, 0x63]
  const DYNAMIC_SYMBOL: Name := [0x5F, 0x44, 0x59, 0x4E, 0x41, 0x4D, 0x49, 0x43]
  const KD_SUFFIX: Name := [0x2E, 0x6B, 0x64]

  /** The last symbol table of that name among the first k sections: what the table dictionary holds. */
  function TableNamed(o: Elf, name: Name, k: nat): (r: Option<nat>)
    requires k <= |o.sections|
    ensures r.Some? ==> r.value < k && o.sections[r.value].IsSymbolTable()
  {
    if k == 0 then None
    else if o.sections[k - 1].IsSymbolTable() && SectionName(o, o.sections[k - 1]) == name then Some(k - 1)
    else TableNamed(o, name, k - 1)
  }

  function FirstNamed(o: Elf, name: Name, i: nat): (k: nat)
    requires i <= |o.sections|
    ensures i <= k <= |o.sections|
    decreases |o.sections| - i
  {
    if i == |o.sections| || SectionName(o, o.sections[i]) == name then i else FirstNamed(o, name, i + 1)
  }

  /** In the tables kept by name, `_DYNAMIC` has the new address of .dynamic. */
  predicate DynamicOk(p: Pair, i: nat)
    requires p.Indexed() && TablesOk(p) && i < |p.o.sections| && p.o.sections[i].IsSymbolTable()
  {
    var d := FirstNamed(p.o, DYNAMIC_NAME, 0);
    d < |p.o.sections| && TableNamed(p.o, SectionName(p.o, p.o.sections[i]), |p.o.sections|) == Some(i) ==>
      forall j ::
        0 <= j < SymbolCount(p.o, p.o.sections[i]) && SymbolAt(p.o, p.o.sections[i], j).name == DYNAMIC_SYMBOL ==>
        SymbolAt(p.n, p.n.sections[i], j).value == p.n.sections[d].addr
  }

  function KernelTable(o: Elf): (r: Option<nat>)
    ensures r.Some? ==> r.value < |o.sections| && o.sections[r.value].IsSymbolTable()
  {
    var s := TableNamed(o, SYMTAB_NAME, |o.sections|);
    if s.Some? then s else TableNamed(o, DYNSYM_NAME, |o.sections|)
  }

  predicate IsKernel(p: Pair, a: Symbol) {
    a.info % 16 == 2 && a.shndx == p.t && a.size != 0
  }

  predicate KernelOk(p: Pair, a: Symbol, b: Symbol)
    requires p.Indexed()
  {
    var was, now := Payload(p.o, p.Ot()), Payload(p.n, p.Nt());
    && a.value >= p.Ot().addr && a.value - p.Ot().addr + a.size <= |was| && b.value == a.value && b.size == a.size
    && var lo := a.value - p.Ot().addr; Slice(now, lo, lo + a.size) == Slice(was, lo, lo + a.size)
  }

  predicate EndsWithKd(name: Name) {
    |name| >= 3 && name[|name| - 3..] == KD_SUFFIX
  }

  predicate IsDescriptor(p: Pair, a: Symbol)
    requires p.Indexed()
  {
    && !IsKernel(p, a) && a.info % 16 == 1 && a.shndx < |p.o.sections|
    && var s := p.o.sections[a.shndx];
       s.Alloc() && !s.Exec() && !s.Nobits() && (EndsWithKd(a.name) || a.size == 64)
  }

  /** A Python slice whose bounds may be negative. */
  function PySlice(b: Bytes, lo: int, hi: int): (s: Bytes) {
    Slice(b, PyIndex(lo, |b|), PyIndex(hi, |b|))
  }

  function PyIndex(i: int, n: nat): (k: nat) {
    if i >= 0 then i else if n + i >= 0 then n + i else 0
  }

  predicate DescriptorOk(p: Pair, a: Symbol, b: Symbol)
    requires p.Indexed() && a.shndx < |p.o.sections|
  {
    var s, n := p.o.sections[a.shndx], p.n.sections[a.shndx];
    var was := PySlice(Payload(p.o, s), a.value - s.addr, a.value - s.addr + a.size);
    var now := PySlice(Payload(p.n, n), b.value - n.addr, b.value - n.addr + a.size);
    was == now && |was| == a.size && b.value == a.value && b.size == a.size
  }

  predicate KernelsOk(p: Pair)
    requires p.Indexed() && TablesOk(p)
  {
    KernelTable(p.o).Some? &&
    var s, n := p.o.sections[KernelTable(p.o).value], p.n.sections[KernelTable(p.o).value];
    && (forall j :: 0 <= j < SymbolCount(p.o, s) ==>
          var a, b := SymbolAt(p.o, s, j), SymbolAt(p.n, n, j);
          (IsKernel(p, a) ==> KernelOk(p, a, b)) && (IsDescriptor(p, a) ==> DescriptorOk(p, a, b)))
    && exists j :: 0 <= j < SymbolCount(p.o, s) && IsKernel(p, SymbolAt(p.o, s, j))
  }

  // ---- acceptance ----

  /** Every check passes for these indices. */
  ghost predicate Passes(p: Pair) {
    && p.Indexed() && OnlyText(p.o, p.t) && OnlyText(p.n, p.u) && IsFirst(p.o, p.t, p.f)
    && HeaderSame(p.o.data, p.n.data) && p.n.shoff % 8 == 0
    && TextHeaderOk(p) && SectionsOk(p) && PlacementOk(p) && PhdrsOk(p)
    && TableAtEnd(p.o) && TableAtEnd(p.n) && HeadSame(p.o, p.n, p.OldEnd())
    && TailOk(Payload(p.o, p.Ot()), Payload(p.n, p.Nt()), p.Ot().size, p.Nt().size, p.Nt().addr)
    && GapsZero(p) && TablesOk(p) && PostSame(p) && p.n.shoff - p.o.shoff == p.FileShift()
    && (forall i :: 0 <= i < |p.o.sections| && p.o.sections[i].IsSymbolTable() ==> DynamicOk(p, i))
    && KernelsOk(p)
  }

  /** The script reports no error for this pair of files. */
  ghost predicate Accepts(o: Elf, n: Elf) {
    exists p: Pair :: p.o == o && p.n == n && Passes(p)
  }
}
