/** The HFQ container at byte level: how its two readers agree, and one file written out in full. */
module HfqExample {
  import opened Wrappers
  import opened Bytes
  import opened Json
  import opened Hfq
  import opened HfqLaws
  import opened HfqPatch

  /** On a file the layout reader accepts the index reader gives up exactly if the count field would run into the
      payloads; otherwise its entries are the records, in order and in full, each with the offset of its payload. */
  lemma {:induction false} ReadersAgree(data: Bytes)
    requires Parse(data).Ok?
    ensures var p := Parse(data).value;
      && (ReadIndex(data).Ok? <==> p.metaEnd + 4 <= p.header.dataOffset)
      && (ReadIndex(data).Ok? ==> Locates(ReadIndex(data).value, p.body.records, p.header.dataOffset))
  {
    hide *;
    var p := ParseParts(data);
    AcceptedBody(data, p);
    EntriesMatch(data, p.header.count, p.metaEnd + 4, p.header.dataOffset);
    IndexIs(data, p);
  }

  lemma {:induction false} IndexIs(data: Bytes, p: Parsed)
    requires ReadHeader(data) == Ok(p.header) && p.header.metadataOffset < p.metaEnd <= p.header.dataOffset <= |data|
    requires ObjectEnd(Slice(data, p.header.metadataOffset, p.header.dataOffset))
          == Some(p.metaEnd - p.header.metadataOffset)
    requires Field(data, p.metaEnd, 4) == Some(p.header.count)
    requires ReadEntries(data, p.header.count, p.metaEnd + 4, p.header.dataOffset).Ok?
    ensures ReadIndex(data).Ok? <==> p.metaEnd + 4 <= p.header.dataOffset
    ensures ReadIndex(data).Ok? ==>
      ReadIndex(data) == ReadEntries(data, p.header.count, p.metaEnd + 4, p.header.dataOffset)
  {
    hide ReadHeader, ObjectEnd, Slice, Field, ReadEntries;
  }

  /** Which error the index reader gives for the offsets: crossed offsets or a payload area past the end are bad,
      an empty metadata area only has no object in it. */
  lemma {:induction false} OffsetErrors(data: Bytes, h: Header)
    requires ReadHeader(data) == Ok(h)
    ensures h.metadataOffset > h.dataOffset || h.dataOffset > |data| ==> ReadIndex(data) == Fail(BadOffsets)
    ensures h.metadataOffset == h.dataOffset <= |data| ==> ReadIndex(data) == Fail(NoJsonObject)
  {
    hide ReadHeader, ReadEntries;
    if h.metadataOffset == h.dataOffset <= |data| {
      assert Slice(data, h.metadataOffset, h.dataOffset) == [];
      assert ObjectEnd([]) == None;
    }
  }

  // ---- one file ----

  /** A tensor called w of shape 2 by 5 with type 3, group size 32 and three payload bytes. */
  const TENSOR: Record := Record([0x77], 3, [2, 5], 32, 3, [9, 8, 7])
  const LAYOUT: Layout := Layout(1, 6, [0x7B, 0x7D], [TENSOR])

  const HEADER: Bytes := [
    0x48, 0x46, 0x51, 0x4D, 1, 0, 0, 0, 6, 0, 0, 0, 1, 0, 0, 0,
    32, 0, 0, 0, 0, 0, 0, 0, 63, 0, 0, 0, 0, 0, 0, 0]

  const INDEX: Bytes := [
    1, 0, 0x77, 3, 2, 2, 0, 0, 0, 5, 0, 0, 0, 32, 0, 0, 0, 3, 0, 0, 0, 0, 0, 0, 0]

  const FILE: Bytes := HEADER + ([0x7B, 0x7D] + ([1, 0, 0, 0] + (INDEX + [9, 8, 7])))

  lemma {:induction false} SmallPack(v: nat, n: nat)
    requires v < 256 && n > 0
    ensures v < Limit(n) && Pack(v, n) == [v] + Zeros(n - 1)
  {
    PackZero(n - 1);
    assert Limit(n) == 256 * Limit(n - 1);
  }

  lemma {:induction false} Small2(v: nat)
    requires v < 256
    ensures v < Limit(2) && Pack(v, 2) == [v, 0]
  {
    SmallPack(v, 2);
    hide Pack, Limit;
  }

  lemma {:induction false} Small4(v: nat)
    requires v < 256
    ensures v < Limit(4) && Pack(v, 4) == [v, 0, 0, 0]
  {
    SmallPack(v, 4);
    hide Pack, Limit;
  }

  lemma {:induction false} Small8(v: nat)
    requires v < 256
    ensures v < Limit(8) && Pack(v, 8) == [v, 0, 0, 0, 0, 0, 0, 0]
  {
    SmallPack(v, 8);
    hide Pack, Limit;
  }

  lemma {:induction false} ShapeWritten()
    ensures ShapeBytes([2, 5]) == Ok([2, 0, 0, 0, 5, 0, 0, 0])
  {
    hide Pack, Limit;
    Small4(2);
    Small4(5);
    assert [2, 5][1..] == [5] && [5][1..] == [];
    assert ShapeBytes([]) == Ok([]);
    assert ShapeBytes([5]) == Ok([5, 0, 0, 0]);
    assert [2, 0, 0, 0] + [5, 0, 0, 0] == [2, 0, 0, 0, 5, 0, 0, 0];
  }

  lemma IndexParts()
    ensures [1, 0] + ([0x77] + ([3] + ([2] + ([2, 0, 0, 0, 5, 0, 0, 0] + ([32, 0, 0, 0] + [3, 0, 0, 0, 0, 0, 0, 0])))))
         == INDEX
  {
  }

  lemma {:induction false} TensorWritten()
    ensures RecordBytes(TENSOR) == Ok(INDEX)
  {
    hide Pack, Limit;
    Small2(1);
    Small4(32);
    Small8(3);
    ShapeWritten();
    hide ShapeBytes;
    assert RecordBytes(TENSOR) == Ok(Pack(1, 2) + ([0x77] + ([3] + ([2] + ([2, 0, 0, 0, 5, 0, 0, 0]
      + (Pack(32, 4) + Pack(3, 8)))))));
    hide RecordBytes;
    IndexParts();
  }

  lemma {:induction false} HeaderWritten()
    ensures 1 < Limit(4) && 6 < Limit(4) && 32 < Limit(8) && 63 < Limit(8)
    ensures HeaderBytes(Header(1, 6, 1, 32, 63)) == HEADER
  {
    hide Pack, Limit;
    Small4(1);
    Small4(6);
    Small8(32);
    Small8(63);
    assert HeaderBytes(Header(1, 6, 1, 32, 63)) == MAGIC + ([1, 0, 0, 0] + ([6, 0, 0, 0] + ([1, 0, 0, 0]
      + ([32, 0, 0, 0, 0, 0, 0, 0] + [63, 0, 0, 0, 0, 0, 0, 0]))));
  }

  lemma {:induction false} ExampleWritten()
    ensures WriteLayout(LAYOUT) == Ok(FILE) && |FILE| == 66
  {
    TensorWritten();
    HeaderWritten();
    Small4(1);
    hide Pack, Limit, RecordBytes, HeaderBytes, HEADER, INDEX, TENSOR;
    assert LAYOUT.records[1..] == [];
    assert RecordsBytes([]) == Ok([]) && Payloads([]) == [];
    assert RecordsBytes(LAYOUT.records) == Ok(INDEX) && |INDEX| == 25 && |HEADER| == 32 by { IndexLength(); }
    assert Payloads(LAYOUT.records) == [9, 8, 7] by { TensorData(); }
  }

  lemma IndexLength()
    ensures |INDEX| == 25 && |HEADER| == 32
  {
  }

  lemma TensorData()
    ensures TENSOR.data == [9, 8, 7] && TENSOR.name == [0x77] && LAYOUT.metadata == [0x7B, 0x7D]
    ensures LAYOUT.records == [TENSOR]
  {
  }

  lemma ExampleNames()
    ensures NamesOk(LAYOUT.records) && LAYOUT.metadata == [0x7B, 0x7D]
  {
    assert [0x77][1..] == [] && ValidUtf8([0x77]);
  }

  /** What an accepted file's layout says of its parse. */
  lemma {:induction false} ParsedLayout(data: Bytes, l: Layout)
    requires ReadLayout(data) == Ok(l)
    ensures Parse(data).Ok?
    ensures var p := Parse(data).value;
      p.body.records == l.records && Slice(data, p.header.metadataOffset, p.metaEnd) == l.metadata
  {
    hide Parse, Slice;
  }

  lemma {:induction false} ExampleHeader()
    ensures ReadHeader(FILE) == Ok(Header(1, 6, 1, 32, 63))
  {
    HeaderWritten();
    assert At(FILE, 0, HEADER);
    Small4(1);
    hide *;
    HeaderRoundTrip(FILE, Header(1, 6, 1, 32, 63));
  }

  lemma {:induction false} SliceLength(data: Bytes, lo: nat, hi: nat)
    requires lo <= hi <= |data|
    ensures |Slice(data, lo, hi)| == hi - lo
  {
  }

  lemma {:induction false} OneEntry(es: seq<Entry>, base: nat)
    requires Locates(es, [TENSOR], base)
    ensures |es| == 1
    ensures var e := es[0];
      && e.name == [0x77] && e.fields.quantType == 3 && e.fields.shape == [2, 5] && e.fields.groupSize == 32
      && e.fields.dataSize == 3 && e.dataOffset == base
  {
  }

  /** The writer produces exactly these bytes for that layout, the reader reads them back, and the index reader
      finds the tensor with its fields, its payload at byte 63. */
  lemma {:induction false} ExampleFile()
    ensures WriteLayout(LAYOUT) == Ok(FILE) && |FILE| == 66
    ensures ReadLayout(FILE) == Ok(LAYOUT)
    ensures ReadIndex(FILE).Ok? && |ReadIndex(FILE).value| == 1
    ensures var e := ReadIndex(FILE).value[0];
      && e.name == [0x77] && e.fields.quantType == 3 && e.fields.shape == [2, 5] && e.fields.groupSize == 32
      && e.fields.dataSize == 3 && e.dataOffset == 63
  {
    hide *;
    ExampleWritten();
    BracesAreObject();
    ExampleNames();
    TensorData();
    RoundTrip(LAYOUT);
    ParsedLayout(FILE, LAYOUT);
    var p := ParseParts(FILE);
    ExampleHeader();
    SliceLength(FILE, 32, p.metaEnd);
    ReadersAgree(FILE);
    OneEntry(ReadIndex(FILE).value, 63);
  }
}
