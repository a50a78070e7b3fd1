/** ELF64 little-endian objects at byte level, as scripts/check-pm-code-end.py parses them. */
module ElfFormat {
  import opened Wrappers
  import opened Bytes

  const SHT_NULL: nat := 0
  const SHT_SYMTAB: nat := 2
  const SHT_NOBITS: nat := 8
  const SHT_DYNSYM: nat := 11
  const SHN_LORESERVE: nat := 0xFF00

  datatype Section = Section(nameIdx: nat, kind: nat, flags: nat, addr: nat, offset: nat, size: nat,
                             link: nat, info: nat, align: nat, entsize: nat) {
    predicate Nobits() { kind == SHT_NOBITS }
    predicate IsNull() { kind == SHT_NULL }
    predicate Alloc() { flags / 2 % 2 == 1 }
    predicate Exec() { flags / 4 % 2 == 1 }
    predicate IsSymbolTable() { kind == SHT_SYMTAB || kind == SHT_DYNSYM }
  }

  datatype Phdr = Phdr(kind: nat, flags: nat, offset: nat, vaddr: nat, paddr: nat, filesz: nat, memsz: nat, align: nat)

  /** Names are decoded text: bytes above 127 all become the replacement character. */
  type Name = seq<int>

  datatype Symbol = Symbol(name: Name, info: nat, other: nat, shndx: nat, value: nat, size: nat)

  datatype Elf = Elf(data: Bytes, phoff: nat, shoff: nat, phnum: nat, shnum: nat, shstrndx: nat,
                     phdrs: seq<Phdr>, sections: seq<Section>)

  /** The n-byte little-endian field at off. */
  function U(data: Bytes, off: nat, n: nat): (v: nat)
    requires off + n <= |data|
  {
    Unpack(data[off..off + n])
  }

  function ParseSection(data: Bytes, off: nat): (s: Section)
    requires off + 64 <= |data|
  {
    Section(U(data, off, 4), U(data, off + 4, 4), U(data, off + 8, 8), U(data, off + 16, 8), U(data, off + 24, 8),
            U(data, off + 32, 8), U(data, off + 40, 4), U(data, off + 44, 4), U(data, off + 48, 8),
              U(data, off + 56, 8))
  }

  function ParsePhdr(data: Bytes, off: nat): (p: Phdr)
    requires off + 56 <= |data|
  {
    Phdr(U(data, off, 4), U(data, off + 4, 4), U(data, off + 8, 8), U(data, off + 16, 8), U(data, off + 24, 8),
         U(data, off + 32, 8), U(data, off + 40, 8), U(data, off + 48, 8))
  }

  function ParseSections(data: Bytes, off: nat, n: nat): (r: seq<Section>)
    requires off + 64 * n <= |data|
    ensures |r| == n && forall i :: 0 <= i < n ==> r[i] == ParseSection(data, off + 64 * i)
    decreases n
  {
    if n == 0 then [] else ParseSections(data, off, n - 1) + [ParseSection(data, off + 64 * (n - 1))]
  }

  function ParsePhdrs(data: Bytes, off: nat, n: nat): (r: seq<Phdr>)
    requires off + 56 * n <= |data|
    ensures |r| == n && forall i :: 0 <= i < n ==> r[i] == ParsePhdr(data, off + 56 * i)
    decreases n
  {
    if n == 0 then [] else ParsePhdrs(data, off, n - 1) + [ParsePhdr(data, off + 56 * (n - 1))]
  }

  predicate SectionInFile(s: Section, size: nat) {
    !s.Nobits() && !s.IsNull() ==> s.offset + s.size <= size
  }

  /** The fields of e are what its bytes say, and every table and payload lies inside the file. */
  predicate WellParsed(e: Elf) {
    && |e.data| >= 64
    && e.phoff == U(e.data, 32, 8) && e.shoff == U(e.data, 40, 8) && e.phnum == U(e.data, 56, 2)
    && e.shnum == U(e.data, 60, 2) && e.shstrndx == U(e.data, 62, 2)
    && e.phoff + 56 * e.phnum <= |e.data| && e.shoff + 64 * e.shnum <= |e.data|
    && e.phdrs == ParsePhdrs(e.data, e.phoff, e.phnum) && e.sections == ParseSections(e.data, e.shoff, e.shnum)
    && forall i :: 0 <= i < |e.sections| ==> SectionInFile(e.sections[i], |e.data|)
  }

  /** None where the constructor raises. */
  function ParseElf(data: Bytes): (r: Option<Elf>)
    ensures r.Some? ==> WellParsed(r.value) && r.value.data == data
  {
    if |data| < 64 || data[..4] != [0x7F, 0x45, 0x4C, 0x46] || data[4] != 2 || data[5] != 1 then None
    else if U(data, 58, 2) != 64 || U(data, 54, 2) != 56 then None
    else
      var phoff, shoff, phnum, shnum := U(data, 32, 8), U(data, 40, 8), U(data, 56, 2), U(data, 60, 2);
      if phoff + phnum * 56 > |data| || shoff + shnum * 64 > |data| then None else
        var e := Elf(data, phoff, shoff, phnum, shnum, U(data, 62, 2), ParsePhdrs(data, phoff, phnum),
          ParseSections(data, shoff, shnum));
        if forall i :: 0 <= i < |e.sections| ==> SectionInFile(e.sections[i], |data|) then Some(e) else None
  }

  function Payload(e: Elf, s: Section): (b: Bytes)
    ensures !s.Nobits() && s.offset + s.size <= |e.data| ==> b == e.data[s.offset..s.offset + s.size]
  {
    if s.Nobits() then [] else Slice(e.data, s.offset, s.offset + s.size)
  }

  function Character(b: byte): int {
    if b < 128 then b as int else 0xFFFD
  }

  function Decode(b: Bytes): (n: Name) {
    seq(|b|, i requires 0 <= i < |b| => Character(b[i]))
  }

  /** Bytes of buf from off up to the next zero byte or the end. */
  function UpToZero(buf: Bytes, off: nat): (r: Bytes)
    requires off <= |buf|
    decreases |buf| - off
  {
    if off == |buf| || buf[off] == 0 then [] else [buf[off]] + UpToZero(buf, off + 1)
  }

  function CStr(buf: Bytes, off: nat): (n: Name) {
    if off >= |buf| then [] else Decode(UpToZero(buf, off))
  }

  function SectionName(e: Elf, s: Section): (n: Name) {
    if e.shstrndx < |e.sections| then CStr(Payload(e, e.sections[e.shstrndx]), s.nameIdx) else []
  }

  function SymbolCount(e: Elf, s: Section): (n: nat)
    ensures 24 * n <= |Payload(e, s)|
  {
    |Payload(e, s)| / 24
  }

  /** Symbol j of table s, its name read from the section the table links to. */
  function SymbolAt(e: Elf, s: Section, j: nat): (sym: Symbol)
    requires j < SymbolCount(e, s) && s.link < |e.sections|
  {
    var raw, o := Payload(e, s), 24 * j;
    Symbol(CStr(Payload(e, e.sections[s.link]), U(raw, o, 4)), U(raw, o + 4, 1), U(raw, o + 5, 1), U(raw, o + 6, 2),
      U(raw, o + 8, 8), U(raw, o + 16, 8))
  }

  // ---- a table entry's bytes are determined by its fields ----

  lemma {:induction false} FieldBytesEqual(a: Bytes, b: Bytes, off: nat, n: nat)
    requires off + n <= |a| && off + n <= |b| && U(a, off, n) == U(b, off, n)
    ensures a[off..off + n] == b[off..off + n]
  {
    UnpackInjective(a[off..off + n], b[off..off + n]);
  }

  lemma {:induction false} JoinEqual(a: Bytes, b: Bytes, i: nat, j: nat, k: nat)
    requires i <= j <= k <= |a| && k <= |b| && a[i..j] == b[i..j] && a[j..k] == b[j..k]
    ensures a[i..k] == b[i..k]
  {
    assert a[i..k] == a[i..j] + a[j..k] && b[i..k] == b[i..j] + b[j..k];
  }

  lemma {:induction false} SectionBytesEqual(a: Bytes, b: Bytes, off: nat)
    requires off + 64 <= |a| && off + 64 <= |b| && ParseSection(a, off) == ParseSection(b, off)
    ensures a[off..off + 64] == b[off..off + 64]
  {
    hide U;
    FieldBytesEqual(a, b, off, 4);
    FieldBytesEqual(a, b, off + 4, 4);
    FieldBytesEqual(a, b, off + 8, 8);
    FieldBytesEqual(a, b, off + 16, 8);
    FieldBytesEqual(a, b, off + 24, 8);
    FieldBytesEqual(a, b, off + 32, 8);
    FieldBytesEqual(a, b, off + 40, 4);
    FieldBytesEqual(a, b, off + 44, 4);
    FieldBytesEqual(a, b, off + 48, 8);
    FieldBytesEqual(a, b, off + 56, 8);
    JoinEqual(a, b, off, off + 4, off + 8);
    JoinEqual(a, b, off, off + 8, off + 16);
    JoinEqual(a, b, off, off + 16, off + 24);
    JoinEqual(a, b, off, off + 24, off + 32);
    JoinEqual(a, b, off, off + 32, off + 40);
    JoinEqual(a, b, off, off + 40, off + 44);
    JoinEqual(a, b, off, off + 44, off + 48);
    JoinEqual(a, b, off, off + 48, off + 56);
    JoinEqual(a, b, off, off + 56, off + 64);
  }

  lemma {:induction false} PhdrBytesEqual(a: Bytes, b: Bytes, off: nat)
    requires off + 56 <= |a| && off + 56 <= |b| && ParsePhdr(a, off) == ParsePhdr(b, off)
    ensures a[off..off + 56] == b[off..off + 56]
  {
    hide U;
    FieldBytesEqual(a, b, off, 4);
    FieldBytesEqual(a, b, off + 4, 4);
    FieldBytesEqual(a, b, off + 8, 8);
    FieldBytesEqual(a, b, off + 16, 8);
    FieldBytesEqual(a, b, off + 24, 8);
    FieldBytesEqual(a, b, off + 32, 8);
    FieldBytesEqual(a, b, off + 40, 8);
    FieldBytesEqual(a, b, off + 48, 8);
    JoinEqual(a, b, off, off + 4, off + 8);
    JoinEqual(a, b, off, off + 8, off + 16);
    JoinEqual(a, b, off, off + 16, off + 24);
    JoinEqual(a, b, off, off + 24, off + 32);
    JoinEqual(a, b, off, off + 32, off + 40);
    JoinEqual(a, b, off, off + 40, off + 48);
    JoinEqual(a, b, off, off + 48, off + 56);
  }
}
