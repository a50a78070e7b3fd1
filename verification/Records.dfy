/** Records of little-endian fields as `struct.pack` writes them, tables of records, and files made
    by writing chunks at increasing offsets. */
module Records {
  import opened Bytes
  import opened ElfFormat

  datatype Field = Field(value: nat, width: nat)

  type Record = seq<Field>

  /** struct.pack accepts every field. */
  predicate Fits(r: Record) {
    forall i :: 0 <= i < |r| ==> r[i].value < Limit(r[i].width)
  }

  function Width(r: Record, i: nat): (w: nat)
    requires i <= |r|
    decreases |r| - i
  {
    if i == |r| then 0 else r[i].width + Width(r, i + 1)
  }

  function PackFrom(r: Record, i: nat): (b: Bytes)
    requires Fits(r) && i <= |r|
    ensures |b| == Width(r, i)
    decreases |r| - i
  {
    if i == |r| then [] else Pack(r[i].value, r[i].width) + PackFrom(r, i + 1)
  }

  function PackRecord(r: Record): (b: Bytes)
    requires Fits(r)
    ensures |b| == Width(r, 0)
  {
    PackFrom(r, 0)
  }

  /** The next field of a record reads back, and the rest of the record follows it. */
  lemma {:induction false} FieldRead(data: Bytes, pos: nat, r: Record, i: nat)
    requires Fits(r) && i < |r| && At(data, pos, PackFrom(r, i))
    ensures pos + r[i].width <= |data| && U(data, pos, r[i].width) == r[i].value
    ensures At(data, pos + r[i].width, PackFrom(r, i + 1))
  {
    AtConcat(data, pos, Pack(r[i].value, r[i].width), PackFrom(r, i + 1));
    UnpackPack(r[i].value, r[i].width);
  }

  /** The same fields but for the value of field d. */
  predicate DifferAt(r: Record, s: Record, d: nat) {
    && |r| == |s| && (forall j :: 0 <= j < |r| ==> r[j].width == s[j].width)
    && (forall j :: 0 <= j < |r| && j != d ==> r[j] == s[j])
  }

  lemma {:induction false} SameWidth(r: Record, s: Record, d: nat, i: nat)
    requires DifferAt(r, s, d) && i <= |r|
    ensures Width(r, i) == Width(s, i)
    decreases |r| - i
  {
    if i < |r| {
      SameWidth(r, s, d, i + 1);
    }
  }

  lemma {:induction false} SuffixWidth(r: Record, i: nat, d: nat)
    requires i <= d < |r|
    ensures Width(r, i) >= Width(r, d) >= r[d].width && (i < d ==> Width(r, i) >= Width(r, d) + r[i].width)
    decreases d - i
  {
    if i < d {
      SuffixWidth(r, i + 1, d);
    }
  }

  lemma {:induction false} PackIndex(r: Record, i: nat, k: nat)
    requires Fits(r) && i < |r| && k < Width(r, i)
    ensures k < r[i].width ==> PackFrom(r, i)[k] == Pack(r[i].value, r[i].width)[k]
    ensures k >= r[i].width ==>
      k - r[i].width < Width(r, i + 1)
      && PackFrom(r, i)[k] == PackFrom(r, i + 1)[k - r[i].width]
  {
    hide Pack;
  }

  /** Records that differ in one value differ in that field's bytes only. */
  lemma {:induction false} PackDiffers(r: Record, s: Record, d: nat, i: nat, k: nat)
    requires Fits(r) && Fits(s) && DifferAt(r, s, d) && i <= d < |r| && k < Width(r, i)
    requires !(Width(r, i) - Width(r, d) <= k < Width(r, i) - Width(r, d) + r[d].width)
    ensures Width(s, i) == Width(r, i) && PackFrom(r, i)[k] == PackFrom(s, i)[k]
    decreases |r| - i
  {
    SameWidth(r, s, d, i);
    SuffixWidth(r, i, d);
    PackIndex(r, i, k);
    PackIndex(s, i, k);
    assert i != d ==> r[i] == s[i];
    assert r[i].width == s[i].width && Width(r, i) == r[i].width + Width(r, i + 1);
    hide PackFrom, Pack, Fits, Width, DifferAt;
    if i == d {
      PackSame(r, s, d, i + 1);
    } else if k >= r[i].width {
      SameWidth(r, s, d, i + 1);
      PackDiffers(r, s, d, i + 1, k - r[i].width);
    }
  }

  lemma {:induction false} PackSame(r: Record, s: Record, d: nat, i: nat)
    requires Fits(r) && Fits(s) && DifferAt(r, s, d) && d < i <= |r|
    ensures PackFrom(r, i) == PackFrom(s, i)
    decreases |r| - i
  {
    if i < |r| {
      PackSame(r, s, d, i + 1);
    }
  }

  lemma {:induction false} AtWithin(data: Bytes, pos: nat, x: Bytes, off: nat, y: Bytes)
    requires At(data, pos, x) && At(x, off, y)
    ensures At(data, pos + off, y)
  {
    var here := data[pos + off..pos + off + |y|];
    forall i | 0 <= i < |y|
      ensures here[i] == y[i]
    {
      assert x[off..off + |y|][i] == x[off + i] && data[pos..pos + |x|][off + i] == data[pos + off + i];
    }
    assert here == y;
  }

  // ---- tables of records ----

  predicate AllFit(rows: seq<Record>) {
    forall i :: 0 <= i < |rows| ==> Fits(rows[i])
  }

  function Table(rows: seq<Record>, m: nat): (b: Bytes)
    requires AllFit(rows) && m <= |rows|
  {
    if m == 0 then [] else Table(rows, m - 1) + PackRecord(rows[m - 1])
  }

  predicate AllWide(rows: seq<Record>, w: nat) {
    forall i :: 0 <= i < |rows| ==> Width(rows[i], 0) == w
  }

  lemma {:induction false} TableLength(rows: seq<Record>, m: nat, w: nat)
    requires AllFit(rows) && AllWide(rows, w) && m <= |rows|
    ensures |Table(rows, m)| == w * m
  {
    hide Width, Fits, PackRecord;
    if m > 0 {
      TableLength(rows, m - 1, w);
      assert w * m == w * (m - 1) + w;
    }
  }

  /** Row j of a table is at its place. */
  lemma {:induction false} RowAt(rows: seq<Record>, m: nat, w: nat, j: nat)
    requires AllFit(rows) && AllWide(rows, w) && j < m <= |rows|
    ensures At(Table(rows, m), w * j, PackRecord(rows[j]))
  {
    hide Width, Fits, PackRecord;
    TableLength(rows, m - 1, w);
    if j == m - 1 {
      Joined(Table(rows, m - 1), PackRecord(rows[j]));
    } else {
      RowAt(rows, m - 1, w, j);
      Longer(Table(rows, m - 1), PackRecord(rows[m - 1]), w * j, PackRecord(rows[j]));
    }
  }

  lemma Joined(a: Bytes, b: Bytes)
    ensures At(a + b, |a|, b)
  {
  }

  lemma Longer(a: Bytes, b: Bytes, pos: nat, x: Bytes)
    requires At(a, pos, x)
    ensures At(a + b, pos, x)
  {
    assert (a + b)[pos..pos + |x|] == a[pos..pos + |x|];
  }

  /** Byte k of a table is byte k % w of row k / w. */
  lemma {:induction false} TableByte(rows: seq<Record>, m: nat, w: nat, j: nat, k: nat)
    requires AllFit(rows) && AllWide(rows, w) && j < m <= |rows| && k < w
    ensures w * j + k < |Table(rows, m)| && Table(rows, m)[w * j + k] == PackRecord(rows[j])[k]
  {
    hide Width, Fits, PackRecord, Table;
    RowAt(rows, m, w, j);
    var t, x := Table(rows, m), PackRecord(rows[j]);
    assert t[w * j..w * j + |x|][k] == t[w * j + k];
  }

  // ---- chunks ----

  datatype Chunk = Chunk(off: nat, data: Bytes) {
    function End(): nat { off + |data| }
    predicate Covers(k: int) { off <= k < End() }
  }

  function Fill(n: nat, b: byte): (r: Bytes)
    ensures |r| == n && forall k :: 0 <= k < n ==> r[k] == b
  {
    seq(n, _ => b)
  }

  /** put: extend with zeros if needed, then overwrite in place. */
  function Put(out: Bytes, c: Chunk): (r: Bytes)
    ensures |r| >= c.End() && |r| >= |out|
  {
    var long := if |out| < c.End() then out + Fill(c.End() - |out|, 0) else out;
    long[..c.off] + c.data + long[c.End()..]
  }

  function Written(cs: seq<Chunk>, m: nat): (out: Bytes)
    requires m <= |cs|
  {
    if m == 0 then [] else Put(Written(cs, m - 1), cs[m - 1])
  }

  /** Each chunk starts at or after the end of the one before it. */
  predicate Ordered(cs: seq<Chunk>) {
    forall i :: 0 < i < |cs| ==> cs[i - 1].End() <= cs[i].off
  }

  lemma {:induction false} OrderedApart(cs: seq<Chunk>, i: nat, j: nat)
    requires Ordered(cs) && i < j < |cs|
    ensures cs[i].End() <= cs[j].off
    decreases j
  {
    if i < j - 1 {
      OrderedApart(cs, i, j - 1);
    }
  }

  /** Byte k after m writes: that of the last chunk on it, or zero. */
  function ByteAt(cs: seq<Chunk>, m: nat, k: nat): (b: byte)
    requires m <= |cs|
  {
    if m == 0 then 0 else if cs[m - 1].Covers(k) then cs[m - 1].data[k - cs[m - 1].off] else ByteAt(cs, m - 1, k)
  }

  lemma {:induction false} PutAppends(out: Bytes, c: Chunk)
    requires |out| <= c.off
    ensures Put(out, c) == out + Fill(c.off - |out|, 0) + c.data
  {
    var long := out + Fill(c.End() - |out|, 0);
    assert long[..c.off] == out + Fill(c.off - |out|, 0) && long[c.End()..] == [];
  }

  lemma {:induction false} WrittenLength(cs: seq<Chunk>, m: nat)
    requires Ordered(cs) && m <= |cs|
    ensures |Written(cs, m)| == if m == 0 then 0 else cs[m - 1].End()
  {
    if m > 0 {
      WrittenLength(cs, m - 1);
      PutAppends(Written(cs, m - 1), cs[m - 1]);
    }
  }

  lemma {:induction false} Beyond(cs: seq<Chunk>, m: nat, k: nat)
    requires m <= |cs| && forall j :: 0 <= j < m ==> !cs[j].Covers(k)
    ensures ByteAt(cs, m, k) == 0
  {
    if m > 0 {
      Beyond(cs, m - 1, k);
    }
  }

  lemma {:induction false} WrittenByte(cs: seq<Chunk>, m: nat, k: nat)
    requires Ordered(cs) && m <= |cs| && k < |Written(cs, m)|
    ensures Written(cs, m)[k] == ByteAt(cs, m, k)
  {
    if m > 0 {
      var out, c := Written(cs, m - 1), cs[m - 1];
      WrittenLength(cs, m - 1);
      PutAppends(out, c);
      var made := out + Fill(c.off - |out|, 0) + c.data;
      if k < |out| {
        WrittenByte(cs, m - 1, k);
        assert made[k] == out[k];
      } else if k < c.off {
        NoneCovers(cs, m - 1, k);
        Beyond(cs, m - 1, k);
      }
    }
  }

  lemma {:induction false} NoneCovers(cs: seq<Chunk>, m: nat, k: nat)
    requires Ordered(cs) && m <= |cs| && (m > 0 ==> k >= cs[m - 1].End())
    ensures forall j :: 0 <= j < m ==> !cs[j].Covers(k)
  {
    forall j | 0 <= j < m
      ensures !cs[j].Covers(k)
    {
      if j < m - 1 {
        OrderedApart(cs, j, m - 1);
      }
    }
  }

  lemma {:induction false} InChunk(cs: seq<Chunk>, m: nat, j: nat, k: nat)
    requires Ordered(cs) && j < m <= |cs| && cs[j].Covers(k)
    ensures ByteAt(cs, m, k) == cs[j].data[k - cs[j].off]
  {
    if j < m - 1 {
      OrderedApart(cs, j, m - 1);
      InChunk(cs, m - 1, j, k);
    }
  }

  /** Every chunk is in the written file. */
  lemma {:induction false} ChunkAt(cs: seq<Chunk>, j: nat)
    requires Ordered(cs) && j < |cs|
    ensures At(Written(cs, |cs|), cs[j].off, cs[j].data)
  {
    hide Written, ByteAt, Ordered;
    var out, c := Written(cs, |cs|), cs[j];
    WrittenLength(cs, |cs|);
    if j < |cs| - 1 {
      OrderedApart(cs, j, |cs| - 1);
    }
    assert c.End() <= |out|;
    forall i | 0 <= i < |c.data|
      ensures out[c.off + i] == c.data[i]
    {
      WrittenByte(cs, |cs|, c.off + i);
      InChunk(cs, |cs|, j, c.off + i);
    }
    assert out[c.off..c.End()] == c.data;
  }

  /** Chunk a gives position j the byte that chunk b gives position k. */
  predicate AgreeAt(a: Chunk, b: Chunk, j: int, k: int) {
    (a.Covers(j) <==> b.Covers(k)) && (a.Covers(j) ==> a.data[j - a.off] == b.data[k - b.off])
  }

  lemma {:induction false} SameWritten(cs: seq<Chunk>, ds: seq<Chunk>, m: nat, j: nat, k: nat)
    requires m <= |cs| == |ds| && forall i :: 0 <= i < m ==> AgreeAt(cs[i], ds[i], j, k)
    ensures ByteAt(cs, m, j) == ByteAt(ds, m, k)
  {
    if m > 0 {
      SameWritten(cs, ds, m - 1, j, k);
      assert AgreeAt(cs[m - 1], ds[m - 1], j, k);
    }
  }

  // ---- ELF records ----

  function PhdrRecord(h: Phdr): (r: Record) {
    [ Field(h.kind, 4), Field(h.flags, 4), Field(h.offset, 8), Field(h.vaddr, 8), Field(h.paddr, 8),
      Field(h.filesz, 8), Field(h.memsz, 8), Field(h.align, 8) ]
  }

  function SectionRecord(s: Section): (r: Record) {
    [ Field(s.nameIdx, 4), Field(s.kind, 4), Field(s.flags, 8), Field(s.addr, 8), Field(s.offset, 8),
      Field(s.size, 8), Field(s.link, 4), Field(s.info, 4), Field(s.align, 8), Field(s.entsize, 8) ]
  }

  lemma {:induction false} PhdrRoundTrip(data: Bytes, pos: nat, h: Phdr)
    requires Fits(PhdrRecord(h)) && At(data, pos, PackRecord(PhdrRecord(h)))
    ensures pos + 56 <= |data| && ParsePhdr(data, pos) == h
  {
    hide Fits, U, PackFrom, At;
    var r := PhdrRecord(h);
    FieldRead(data, pos, r, 0);
    FieldRead(data, pos + 4, r, 1);
    FieldRead(data, pos + 8, r, 2);
    FieldRead(data, pos + 16, r, 3);
    FieldRead(data, pos + 24, r, 4);
    FieldRead(data, pos + 32, r, 5);
    FieldRead(data, pos + 40, r, 6);
    FieldRead(data, pos + 48, r, 7);
  }

  lemma {:induction false} SectionRoundTrip(data: Bytes, pos: nat, s: Section)
    requires Fits(SectionRecord(s)) && At(data, pos, PackRecord(SectionRecord(s)))
    ensures pos + 64 <= |data| && ParseSection(data, pos) == s
  {
    hide Fits, U, PackFrom, At;
    var r := SectionRecord(s);
    FieldRead(data, pos, r, 0);
    FieldRead(data, pos + 4, r, 1);
    FieldRead(data, pos + 8, r, 2);
    FieldRead(data, pos + 16, r, 3);
    FieldRead(data, pos + 24, r, 4);
    FieldRead(data, pos + 32, r, 5);
    FieldRead(data, pos + 40, r, 6);
    FieldRead(data, pos + 44, r, 7);
    FieldRead(data, pos + 48, r, 8);
    FieldRead(data, pos + 56, r, 9);
  }

  lemma PhdrWidth(h: Phdr)
    ensures Width(PhdrRecord(h), 0) == 56
  {
    var r := PhdrRecord(h);
    assert Width(r, 7) == 8;
    assert Width(r, 5) == 24;
    assert Width(r, 3) == 40;
    assert Width(r, 1) == 52;
  }

  lemma SectionWidth(s: Section)
    ensures Width(SectionRecord(s), 0) == 64
  {
    var r := SectionRecord(s);
    assert Width(r, 9) == 8;
    assert Width(r, 7) == 20;
    assert Width(r, 5) == 32;
    assert Width(r, 3) == 48;
    assert Width(r, 1) == 60;
  }

  // ---- symbols ----

  /** A symbol table entry before its name is looked up. */
  datatype Entry = Entry(name: nat, info: nat, other: nat, shndx: nat, value: nat, size: nat)

  function EntryRecord(y: Entry): (r: Record) {
    [ Field(y.name, 4), Field(y.info, 1), Field(y.other, 1), Field(y.shndx, 2), Field(y.value, 8), Field(y.size, 8) ]
  }

  lemma EntryWidth(y: Entry)
    ensures Width(EntryRecord(y), 0) == 24
  {
    var r := EntryRecord(y);
    assert Width(r, 5) == 8;
    assert Width(r, 3) == 18;
    assert Width(r, 1) == 20;
  }

  function EntryRecords(ys: seq<Entry>): (rows: seq<Record>)
    ensures |rows| == |ys| && forall i :: 0 <= i < |ys| ==> rows[i] == EntryRecord(ys[i])
    ensures AllWide(rows, 24)
  {
    var rows := seq(|ys|, i requires 0 <= i < |ys| => EntryRecord(ys[i]));
    assert AllWide(rows, 24) by {
      forall i | 0 <= i < |rows| ensures Width(rows[i], 0) == 24 { EntryWidth(ys[i]); }
    }
    rows
  }

  lemma {:induction false} EntryRead(raw: Bytes, o: nat, y: Entry)
    requires Fits(EntryRecord(y)) && At(raw, o, PackRecord(EntryRecord(y)))
    ensures o + 24 <= |raw|
    ensures U(raw, o, 4) == y.name && U(raw, o + 4, 1) == y.info && U(raw, o + 5, 1) == y.other
    ensures U(raw, o + 6, 2) == y.shndx && U(raw, o + 8, 8) == y.value && U(raw, o + 16, 8) == y.size
  {
    hide Fits, U, PackFrom, At;
    var r := EntryRecord(y);
    FieldRead(raw, o, r, 0);
    FieldRead(raw, o + 4, r, 1);
    FieldRead(raw, o + 5, r, 2);
    FieldRead(raw, o + 6, r, 3);
    FieldRead(raw, o + 8, r, 4);
    FieldRead(raw, o + 16, r, 5);
  }

  /** The symbol that the table reader makes of an entry. */
  function SymbolOf(strs: Bytes, y: Entry): Symbol {
    Symbol(CStr(strs, y.name), y.info, y.other, y.shndx, y.value, y.size)
  }

  /** A written symbol table reads back entry by entry. */
  lemma {:induction false} SymbolRoundTrip(e: Elf, s: Section, ys: seq<Entry>, j: nat)
    requires AllFit(EntryRecords(ys)) && Payload(e, s) == Table(EntryRecords(ys), |ys|)
    requires s.link < |e.sections|
    ensures SymbolCount(e, s) == |ys|
    ensures j < |ys| ==> SymbolAt(e, s, j) == SymbolOf(Payload(e, e.sections[s.link]), ys[j])
  {
    hide Width, CStr, Payload, Table, U, Fits, At;
    var rows := EntryRecords(ys);
    TableLength(rows, |ys|, 24);
    if j < |ys| {
      RowAt(rows, |ys|, 24, j);
      EntryRead(Payload(e, s), 24 * j, ys[j]);
      EntryHere(e, s, j);
    }
  }

  lemma EntryHere(e: Elf, s: Section, j: nat)
    requires j < SymbolCount(e, s) && s.link < |e.sections| && 24 * j + 24 <= |Payload(e, s)|
    ensures var raw, o := Payload(e, s), 24 * j;
      SymbolAt(e, s, j) == SymbolOf(Payload(e, e.sections[s.link]),
        Entry(U(raw, o, 4), U(raw, o + 4, 1), U(raw, o + 5, 1), U(raw, o + 6, 2), U(raw, o + 8, 8), U(raw, o + 16, 8)))
  {
    hide CStr, Payload, U;
  }
}
