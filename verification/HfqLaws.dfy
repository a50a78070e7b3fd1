/** Reading what the writer wrote, and what every file the reader accepts looks like. */
module HfqLaws {
  import opened Wrappers
  import opened Bytes
  import opened Json
  import opened Hfq

  lemma {:induction false} ShapeRoundTrip(data: Bytes, pos: nat, shape: seq<nat>)
    requires ShapeBytes(shape).Ok? && At(data, pos, ShapeBytes(shape).value)
    ensures ReadShape(data, pos, |shape|) == Ok(shape)
    decreases |shape|
  {
    if shape != [] {
      hide At, Limit, Pack;
      var rest := ShapeBytes(shape[1..]).value;
      AtConcat(data, pos, Pack(shape[0], 4), rest);
      FieldAt(data, pos, shape[0], 4);
      ShapeRoundTrip(data, pos + 4, shape[1..]);
      assert [shape[0]] + shape[1..] == shape;
    }
  }

  lemma {:induction false} OctetAt(data: Bytes, pos: nat, b: byte)
    requires At(data, pos, [b])
    ensures Octet(data, pos) == Ok(b)
  {
    assert data[pos] == data[pos..pos + 1][0];
  }

  /** The bytes of a record after its name. */
  function FieldBytes(f: Fields): (b: Bytes)
    requires f.quantType < 256 && |f.shape| < 256 && ShapeBytes(f.shape).Ok?
    requires f.groupSize < Limit(4) && f.dataSize < Limit(8)
  {
    [f.quantType] + ([|f.shape|] + (ShapeBytes(f.shape).value + (Pack(f.groupSize, 4) + Pack(f.dataSize, 8))))
  }

  lemma {:induction false} FieldsRoundTrip(data: Bytes, p: nat, f: Fields)
    requires f.quantType < 256 && |f.shape| < 256 && ShapeBytes(f.shape).Ok?
    requires f.groupSize < Limit(4) && f.dataSize < Limit(8)
    requires At(data, p, FieldBytes(f)) && f.end == p + 14 + 4 * |f.shape|
    ensures ReadFields(data, p) == Ok(f) && f.end == p + |FieldBytes(f)|
  {
    hide At, Limit, Pack, ShapeBytes, ReadShape, Octet;
    var shape, g, d := ShapeBytes(f.shape).value, Pack(f.groupSize, 4), Pack(f.dataSize, 8);
    AtConcat(data, p, [f.quantType], [|f.shape|] + (shape + (g + d)));
    AtConcat(data, p + 1, [|f.shape|], shape + (g + d));
    AtConcat(data, p + 2, shape, g + d);
    AtConcat(data, p + 2 + |shape|, g, d);
    OctetAt(data, p, f.quantType);
    OctetAt(data, p + 1, |f.shape|);
    ShapeRoundTrip(data, p + 2, f.shape);
    FieldAt(data, p + 2 + |shape|, f.groupSize, 4);
    FieldAt(data, p + 6 + |shape|, f.dataSize, 8);
  }

  lemma {:induction false} RecordParts(r: Record, end: nat) returns (f: Fields)
    requires RecordBytes(r).Ok?
    ensures |r.name| < Limit(2) && |r.data| == r.dataSize
    ensures f == Fields(r.quantType, r.shape, r.groupSize, r.dataSize, end)
    ensures f.quantType < 256 && |f.shape| < 256 && ShapeBytes(f.shape).Ok?
    ensures f.groupSize < Limit(4) && f.dataSize < Limit(8)
    ensures RecordBytes(r).value == Pack(|r.name|, 2) + (r.name + FieldBytes(f))
  {
    f := Fields(r.quantType, r.shape, r.groupSize, r.dataSize, end);
  }

  lemma {:induction false} RecordRoundTrip(data: Bytes, pos: nat, cum: nat, r: Record)
    requires RecordBytes(r).Ok? && ValidUtf8(r.name)
    requires At(data, pos, RecordBytes(r).value) && At(data, cum, r.data)
    ensures ReadRecord(data, pos, cum) == Ok(One(r, pos + |RecordBytes(r).value|))
  {
    hide RecordBytes, FieldBytes, Pack, Limit, ShapeBytes, ReadFields, ValidUtf8, Field, Slice;
    var p := pos + 2 + |r.name|;
    var f := RecordParts(r, p + 14 + 4 * |r.shape|);
    var len := Pack(|r.name|, 2);
    AtConcat(data, pos, len, r.name + FieldBytes(f));
    AtConcat(data, pos + 2, r.name, FieldBytes(f));
    FieldAt(data, pos, |r.name|, 2);
    FieldsRoundTrip(data, p, f);
    assert Slice(data, pos + 2, p) == r.name;
    assert Slice(data, cum, cum + r.dataSize) == r.data;
  }

  lemma {:induction false} RecordsRoundTrip(data: Bytes, pos: nat, cum: nat, rs: seq<Record>)
    requires RecordsBytes(rs).Ok? && NamesOk(rs)
    requires At(data, pos, RecordsBytes(rs).value) && At(data, cum, Payloads(rs))
    ensures ReadRecords(data, |rs|, pos, cum) == Ok(Body(rs, pos + |RecordsBytes(rs).value|, cum + |Payloads(rs)|))
    decreases |rs|
  {
    hide *;
    if rs == [] {
      NoRecords(data, pos, cum);
    } else {
      var r, rest := rs[0], rs[1..];
      FirstRecord(rs);
      AtConcat(data, pos, RecordBytes(r).value, RecordsBytes(rest).value);
      AtConcat(data, cum, r.data, Payloads(rest));
      RecordRoundTrip(data, pos, cum, r);
      RecordsRoundTrip(data, pos + |RecordBytes(r).value|, cum + |r.data|, rest);
      ReadStep(data, |rs|, pos, cum);
      assert [r] + rest == rs;
    }
  }

  /** Every record name is well-formed UTF-8, as every encoded string is. */
  predicate NamesOk(rs: seq<Record>) {
    forall i :: 0 <= i < |rs| ==> ValidUtf8(rs[i].name)
  }

  lemma NoRecords(data: Bytes, pos: nat, cum: nat)
    ensures ReadRecords(data, 0, pos, cum) == Ok(Body([], pos, cum))
    ensures RecordsBytes([]) == Ok([]) && Payloads([]) == []
  {
  }

  lemma {:induction false} FirstRecord(rs: seq<Record>)
    requires rs != [] && RecordsBytes(rs).Ok? && NamesOk(rs)
    ensures ValidUtf8(rs[0].name) && NamesOk(rs[1..])
    ensures RecordBytes(rs[0]).Ok? && RecordsBytes(rs[1..]).Ok? && |rs[0].data| == rs[0].dataSize
    ensures RecordsBytes(rs).value == RecordBytes(rs[0]).value + RecordsBytes(rs[1..]).value
    ensures Payloads(rs) == rs[0].data + Payloads(rs[1..])
  {
    hide Pack, Limit, ShapeBytes;
  }

  lemma {:induction false} ReadStep(data: Bytes, n: nat, pos: nat, cum: nat)
    requires n > 0 && ReadRecord(data, pos, cum).Ok?
    ensures var one := ReadRecord(data, pos, cum).value;
      ReadRecords(data, n, pos, cum) == Resumed([one.record],
        ReadRecords(data, n - 1, one.end, cum + one.record.dataSize))
  {
    hide ReadRecord, Resumed;
  }

  lemma {:induction false} HeaderRoundTrip(data: Bytes, h: Header)
    requires h.version < Limit(4) && h.archId < Limit(4) && h.count < Limit(4)
    requires h.metadataOffset < Limit(8) && h.dataOffset < Limit(8)
    requires At(data, 0, HeaderBytes(h))
    ensures ReadHeader(data) == Ok(h)
  {
    var a, b, c, d, e := Pack(h.version, 4), Pack(h.archId, 4), Pack(h.count, 4), Pack(h.metadataOffset, 8),
      Pack(h.dataOffset, 8);
    assert HeaderBytes(h) == MAGIC + (a + (b + (c + (d + e))));
    hide Limit, Pack, HeaderBytes;
    AtConcat(data, 0, MAGIC, a + (b + (c + (d + e))));
    AtConcat(data, 4, a, b + (c + (d + e)));
    AtConcat(data, 8, b, c + (d + e));
    AtConcat(data, 12, c, d + e);
    AtConcat(data, 16, d, e);
    UnpackPack(h.version, 4);
    UnpackPack(h.archId, 4);
    UnpackPack(h.count, 4);
    UnpackPack(h.metadataOffset, 8);
    UnpackPack(h.dataOffset, 8);
  }

  /** The metadata scans as one object that ends with its last byte. */
  predicate IsOneObject(metadata: Bytes) {
    ObjectEnd(metadata) == Some(|metadata|)
  }

  lemma {:induction false} JsonObjectIsOneObject(p: Inside)
    requires InsideOk(p)
    ensures IsOneObject(ObjectBytes(p))
  {
    ObjectEndIsExact(p, []);
    assert ObjectBytes(p) + [] == ObjectBytes(p);
  }

  /** Reading back what was written gives the same layout, for every layout the writer accepts. */
  lemma {:induction false} RoundTrip(l: Layout)
    requires WriteLayout(l).Ok? && IsOneObject(l.metadata) && NamesOk(l.records)
    ensures ReadLayout(WriteLayout(l).value) == Ok(l)
  {
    var data, recs, n := WriteLayout(l).value, RecordsBytes(l.records).value, |l.records|;
    var dataOffset := 32 + |l.metadata| + 4 + |recs|;
    var h := Header(l.version, l.archId, n, 32, dataOffset);
    var meta, count, payloads := l.metadata, Pack(n, 4), Payloads(l.records);
    assert data == HeaderBytes(h) + (meta + (count + (recs + payloads)));
    WrittenReadsBack(data, l, h, recs);
  }

  lemma {:induction false} WrittenReadsBack(data: Bytes, l: Layout, h: Header, recs: Bytes)
    requires h.version < Limit(4) && h.archId < Limit(4) && h.count < Limit(4) && h.dataOffset < Limit(8)
      && 32 < Limit(8)
    requires h == Header(l.version, l.archId, |l.records|, 32, 32 + |l.metadata| + 4 + |recs|)
    requires RecordsBytes(l.records) == Ok(recs)
    requires data == HeaderBytes(h) + (l.metadata + (Pack(|l.records|, 4) + (recs + Payloads(l.records))))
    requires IsOneObject(l.metadata) && NamesOk(l.records)
    ensures ReadLayout(data) == Ok(l)
  {
    hide Limit, Pack, HeaderBytes, RecordsBytes, Payloads, ValidUtf8, ReadHeader, ReadRecords, ObjectEnd, Field;
    hide Slice, At;
    var meta, count, payloads := l.metadata, Pack(|l.records|, 4), Payloads(l.records);
    var rest := meta + (count + (recs + payloads));
    WholeAt(data);
    AtConcat(data, 0, HeaderBytes(h), rest);
    AtConcat(data, 32, meta, count + (recs + payloads));
    AtConcat(data, 32 + |meta|, count, recs + payloads);
    AtConcat(data, 36 + |meta|, recs, payloads);
    HeaderRoundTrip(data, h);
    MetadataScan(data, meta, h.dataOffset);
    FieldAt(data, 32 + |meta|, |l.records|, 4);
    RecordsRoundTrip(data, 36 + |meta|, h.dataOffset, l.records);
    assert |data| == h.dataOffset + |payloads|;
  }

  lemma WholeAt(data: Bytes)
    ensures At(data, 0, data)
  {
  }

  lemma {:induction false} MetadataScan(data: Bytes, meta: Bytes, dataOffset: nat)
    requires At(data, 32, meta) && 32 + |meta| <= dataOffset <= |data| && IsOneObject(meta)
    ensures ObjectEnd(Slice(data, 32, dataOffset)) == Some(|meta|)
    ensures Slice(data, 32, 32 + |meta|) == meta
  {
    hide ObjectEnd;
    var region := Slice(data, 32, dataOffset);
    assert region[..|meta|] == meta == meta[..|meta|];
    ObjectEndIgnoresRest(meta, region);
  }

  // ---- which layouts the writer accepts ----

  predicate ShapeInRange(shape: seq<nat>) {
    forall i :: 0 <= i < |shape| ==> shape[i] < 0x1_0000_0000
  }

  predicate RecordInRange(r: Record) {
    && |r.data| == r.dataSize < 0x1_0000_0000_0000_0000
    && |r.name| < 0x1_0000 && r.quantType < 256 && |r.shape| < 256 && r.groupSize < 0x1_0000_0000
    && ShapeInRange(r.shape)
  }

  function IndexSize(rs: seq<Record>): nat {
    if rs == [] then 0 else 16 + |rs[0].name| + 4 * |rs[0].shape| + IndexSize(rs[1..])
  }

  predicate InRange(l: Layout) {
    && l.version < 0x1_0000_0000 && l.archId < 0x1_0000_0000 && |l.records| < 0x1_0000_0000
    && (forall i :: 0 <= i < |l.records| ==> RecordInRange(l.records[i]))
    && 36 + |l.metadata| + IndexSize(l.records) < 0x1_0000_0000_0000_0000
  }

  lemma {:induction false} ShapeAccepted(shape: seq<nat>)
    ensures ShapeBytes(shape).Ok? <==> ShapeInRange(shape)
  {
    Limits();
    if shape != [] {
      hide Limit, Pack;
      ShapeAccepted(shape[1..]);
      assert forall i :: 0 <= i < |shape| ==> shape[i] == if i == 0 then shape[0] else shape[1..][i - 1];
    }
  }

  lemma {:induction false} RecordAccepted(r: Record)
    ensures RecordBytes(r).Ok? <==> RecordInRange(r)
    ensures RecordBytes(r).Ok? ==> |RecordBytes(r).value| == 16 + |r.name| + 4 * |r.shape|
  {
    Limits();
    ShapeAccepted(r.shape);
    hide Limit, Pack, ShapeBytes;
  }

  lemma {:induction false} RecordsAccepted(rs: seq<Record>)
    ensures RecordsBytes(rs).Ok? <==> forall i :: 0 <= i < |rs| ==> RecordInRange(rs[i])
    ensures RecordsBytes(rs).Ok? ==> |RecordsBytes(rs).value| == IndexSize(rs)
  {
    if rs != [] {
      RecordAccepted(rs[0]);
      RecordsAccepted(rs[1..]);
      hide RecordBytes, RecordInRange;
      assert forall i :: 0 <= i < |rs| ==> rs[i] == if i == 0 then rs[0] else rs[1..][i - 1];
    }
  }

  /** The writer raises exactly on layouts with a field that does not fit its width, or with a
      payload whose length is not the recorded one. */
  lemma {:induction false} WriterAccepts(l: Layout)
    ensures WriteLayout(l).Ok? <==> InRange(l)
  {
    Limits();
    RecordsAccepted(l.records);
    hide Limit, Pack, RecordsBytes, HeaderBytes, RecordInRange;
  }

  // ---- what an accepted file looks like ----

  lemma {:induction false} PackField(data: Bytes, pos: nat, n: nat)
    requires pos + n <= |data|
    ensures Unpack(data[pos..pos + n]) < Limit(n) && At(data, pos, Pack(Unpack(data[pos..pos + n]), n))
  {
    PackUnpack(data[pos..pos + n]);
  }

  lemma {:induction false} ShapeCanonical(data: Bytes, pos: nat, n: nat)
    requires ReadShape(data, pos, n).Ok?
    ensures ShapeBytes(ReadShape(data, pos, n).value).Ok?
    ensures At(data, pos, ShapeBytes(ReadShape(data, pos, n).value).value) || n == 0
    ensures ShapeInRange(ReadShape(data, pos, n).value)
    decreases n
  {
    var shape := ReadShape(data, pos, n).value;
    if n > 0 {
      var d, rest := Field(data, pos, 4).value, ReadShape(data, pos + 4, n - 1).value;
      assert shape[0] == d && shape[1..] == rest;
      ShapeCanonical(data, pos + 4, n - 1);
      PackField(data, pos, 4);
      hide At, Limit, Pack, ReadShape, Field, ShapeInRange;
      if n > 1 {
        AtConcat(data, pos, Pack(d, 4), ShapeBytes(rest).value);
      } else {
        assert Pack(d, 4) + [] == Pack(d, 4);
      }
      ShapeAccepted(shape);
    }
  }

  /** So are the bytes after a record's name. */
  lemma {:induction false} FieldsCanonical(data: Bytes, p: nat)
    requires ReadFields(data, p).Ok?
    ensures var f := ReadFields(data, p).value;
      && f.quantType < 256 && |f.shape| < 256 && ShapeBytes(f.shape).Ok?
      && f.groupSize < Limit(4) && f.dataSize < Limit(8)
      && At(data, p, FieldBytes(f)) && f.end == p + |FieldBytes(f)| && f.end <= |data|
  {
    hide *;
    var f := FieldsSplit(data, p);
    var k := |f.shape|;
    var q := p + 2 + 4 * k;
    ShapeCanonical(data, p + 2, k);
    PackField(data, q, 4);
    PackField(data, q + 4, 8);
    var s, g, d := ShapeBytes(f.shape).value, Pack(f.groupSize, 4), Pack(f.dataSize, 8);
    if k == 0 {
      NoShape(data, p + 2);
    }
    AtConcat(data, q, g, d);
    AtConcat(data, p + 2, s, g + d);
    AtConcat(data, p + 1, [k], s + (g + d));
    AtConcat(data, p, [f.quantType], [k] + (s + (g + d)));
    FieldBytesOf(f);
  }

  lemma NoShape(data: Bytes, pos: nat)
    requires pos <= |data|
    ensures ReadShape(data, pos, 0) == Ok([]) && ShapeBytes([]) == Ok([]) && At(data, pos, [])
  {
  }

  lemma FieldBytesOf(f: Fields)
    requires f.quantType < 256 && |f.shape| < 256 && ShapeBytes(f.shape).Ok?
    requires f.groupSize < Limit(4) && f.dataSize < Limit(8)
    ensures FieldBytes(f) == [f.quantType]
      + ([|f.shape|] + (ShapeBytes(f.shape).value + (Pack(f.groupSize, 4) + Pack(f.dataSize, 8))))
  {
    hide Limit, Pack, ShapeBytes;
  }

  lemma {:induction false} FieldsSplit(data: Bytes, p: nat) returns (f: Fields)
    requires ReadFields(data, p).Ok?
    ensures ReadFields(data, p) == Ok(f) && f.quantType < 256 && |f.shape| < 256 && f.end <= |data|
    ensures f.end == p + 14 + 4 * |f.shape|
    ensures At(data, p, [f.quantType]) && At(data, p + 1, [|f.shape|])
    ensures ReadShape(data, p + 2, |f.shape|) == Ok(f.shape)
    ensures var q := p + 2 + 4 * |f.shape|;
      f.groupSize == Unpack(data[q..q + 4]) && f.dataSize == Unpack(data[q + 4..q + 12])
  {
    hide ReadShape;
    f := ReadFields(data, p).value;
  }

  /** The bytes of an accepted record are the bytes the writer would put there. */
  lemma {:induction false} RecordCanonical(data: Bytes, pos: nat, cum: nat)
    requires ReadRecord(data, pos, cum).Ok?
    ensures var one := ReadRecord(data, pos, cum).value;
      && RecordBytes(one.record).Ok? && ValidUtf8(one.record.name)
      && At(data, pos, RecordBytes(one.record).value) && one.end == pos + |RecordBytes(one.record).value|
      && |one.record.data| == one.record.dataSize && (cum <= |data| ==> At(data, cum, one.record.data))
  {
    hide *;
    var one, f := RecordSplit(data, pos, cum);
    var r := one.record;
    PackField(data, pos, 2);
    FieldsCanonical(data, pos + 2 + |r.name|);
    AtConcat(data, pos + 2, r.name, FieldBytes(f));
    AtConcat(data, pos, Pack(|r.name|, 2), r.name + FieldBytes(f));
    RecordBytesOf(r, f);
  }

  lemma {:induction false} RecordSplit(data: Bytes, pos: nat, cum: nat) returns (one: One, f: Fields)
    requires ReadRecord(data, pos, cum).Ok?
    ensures ReadRecord(data, pos, cum) == Ok(one) && pos + 2 <= |data|
    ensures |one.record.name| == Unpack(data[pos..pos + 2]) && ValidUtf8(one.record.name)
    ensures At(data, pos + 2, one.record.name)
    ensures ReadFields(data, pos + 2 + |one.record.name|) == Ok(f) && one.end == f.end
    ensures f == Fields(one.record.quantType, one.record.shape, one.record.groupSize, one.record.dataSize, f.end)
    ensures |one.record.data| == one.record.dataSize && (cum <= |data| ==> At(data, cum, one.record.data))
  {
    hide ReadFields, ValidUtf8;
    one := ReadRecord(data, pos, cum).value;
    var len := Unpack(data[pos..pos + 2]);
    f := ReadFields(data, pos + 2 + len).value;
    assert f.end <= |data| && pos + 2 + len <= |data| by {
      var g := FieldsSplit(data, pos + 2 + len);
    }
  }

  lemma {:induction false} RecordBytesOf(r: Record, f: Fields)
    requires f == Fields(r.quantType, r.shape, r.groupSize, r.dataSize, f.end)
    requires |r.name| < Limit(2) && |r.data| == r.dataSize
    requires f.quantType < 256 && |f.shape| < 256 && ShapeBytes(f.shape).Ok?
    requires f.groupSize < Limit(4) && f.dataSize < Limit(8)
    ensures RecordBytes(r) == Ok(Pack(|r.name|, 2) + (r.name + FieldBytes(f)))
  {
  }

  /** The index and payload bytes of an accepted file are what the writer produces for its records. */
  lemma {:induction false} RecordsCanonical(data: Bytes, n: nat, pos: nat, cum: nat)
    requires ReadRecords(data, n, pos, cum).Ok? && pos <= |data| && cum <= |data|
    ensures var b := ReadRecords(data, n, pos, cum).value;
      && RecordsBytes(b.records).Ok? && NamesOk(b.records)
      && At(data, pos, RecordsBytes(b.records).value) && b.indexEnd == pos + |RecordsBytes(b.records).value|
      && At(data, cum, Payloads(b.records)) && b.payloadEnd == cum + |Payloads(b.records)|
    decreases n
  {
    hide *;
    var b := ReadRecords(data, n, pos, cum).value;
    if n == 0 {
      NoRecords(data, pos, cum);
      EmptyIndex(data, pos, cum);
    } else {
      var one, rest := ReadSplit(data, n, pos, cum);
      RecordCanonical(data, pos, cum);
      assert |one.record.data| == one.record.dataSize;
      AtInside(data, pos, RecordBytes(one.record).value);
      AtInside(data, cum, one.record.data);
      RecordsCanonical(data, n - 1, one.end, cum + one.record.dataSize);
      assert b.records == [one.record] + rest.records;
      ConsRecord(one.record, rest.records);
      AtConcat(data, pos, RecordBytes(one.record).value, RecordsBytes(rest.records).value);
      AtConcat(data, cum, one.record.data, Payloads(rest.records));
    }
  }

  lemma AtInside(data: Bytes, pos: nat, b: Bytes)
    requires At(data, pos, b)
    ensures pos + |b| <= |data|
  {
  }

  lemma EmptyIndex(data: Bytes, pos: nat, cum: nat)
    requires pos <= |data| && cum <= |data|
    ensures At(data, pos, []) && At(data, cum, []) && NamesOk([])
  {
  }

  lemma {:induction false} ConsRecord(r: Record, rest: seq<Record>)
    requires RecordBytes(r).Ok? && RecordsBytes(rest).Ok? && ValidUtf8(r.name) && NamesOk(rest)
    ensures NamesOk([r] + rest)
    ensures RecordsBytes([r] + rest) == Ok(RecordBytes(r).value + RecordsBytes(rest).value)
    ensures Payloads([r] + rest) == r.data + Payloads(rest)
  {
    hide RecordBytes, ValidUtf8;
    assert ([r] + rest)[1..] == rest;
  }

  lemma {:induction false} ReadSplit(data: Bytes, n: nat, pos: nat, cum: nat) returns (one: One, rest: Body)
    requires n > 0 && ReadRecords(data, n, pos, cum).Ok?
    ensures ReadRecord(data, pos, cum) == Ok(one) && |one.record.data| == one.record.dataSize
    ensures ReadRecords(data, n - 1, one.end, cum + one.record.dataSize) == Ok(rest)
    ensures ReadRecords(data, n, pos, cum).value == rest.(records := [one.record] + rest.records)
  {
    hide ReadRecord;
    one := ReadRecord(data, pos, cum).value;
    rest := ReadRecords(data, n - 1, one.end, cum + one.record.dataSize).value;
  }

  lemma {:induction false} ParseParts(data: Bytes) returns (p: Parsed)
    requires Parse(data).Ok?
    ensures Parse(data) == Ok(p) && ReadHeader(data) == Ok(p.header) && |data| >= 32
    ensures p.header.metadataOffset < p.metaEnd && p.metaEnd <= p.header.dataOffset && p.metaEnd + 4 <= |data|
    ensures var region := Slice(data, p.header.metadataOffset, p.header.dataOffset);
      ObjectEnd(region) == Some(p.metaEnd - p.header.metadataOffset)
    ensures Field(data, p.metaEnd, 4) == Some(p.header.count)
    ensures ReadRecords(data, p.header.count, p.metaEnd + 4, p.header.dataOffset) == Ok(p.body)
    ensures p.body.payloadEnd == |data|
  {
    hide ReadHeader, ObjectEnd, ReadRecords;
    p := Parse(data).value;
  }

  /** The layout of a file the reader accepts: one metadata object, UTF-8 names, and every field in
      range except perhaps the offset the writer would give its payloads. */
  lemma {:induction false} AcceptedLayout(data: Bytes)
    requires ReadLayout(data).Ok?
    ensures var l := ReadLayout(data).value;
      && IsOneObject(l.metadata) && NamesOk(l.records)
      && l.version < 0x1_0000_0000 && l.archId < 0x1_0000_0000 && |l.records| < 0x1_0000_0000
      && (forall i :: 0 <= i < |l.records| ==> RecordInRange(l.records[i]))
      && 4 + |l.metadata| + IndexSize(l.records) <= |data|
  {
    var l := ReadLayout(data).value;
    var p := ParseParts(data);
    assert l == LayoutOf(data, p);
    HeaderFields(data);
    hide ReadLayout, Parse, ReadHeader, ReadRecords, RecordsBytes, At, IsOneObject, NamesOk, RecordInRange;
    PayloadInside(data, p);
    RecordsCanonical(data, p.header.count, p.metaEnd + 4, p.header.dataOffset);
    AtInside(data, p.metaEnd + 4, RecordsBytes(l.records).value);
    RecordsAccepted(l.records);
    MetadataIsObject(data, p);
  }

  /** A written layout reads back as itself exactly if its metadata is one object and its names are
      well-formed. */
  lemma {:induction false} RoundTripExactly(l: Layout)
    requires WriteLayout(l).Ok?
    ensures ReadLayout(WriteLayout(l).value) == Ok(l) <==> IsOneObject(l.metadata) && NamesOk(l.records)
  {
    var data := WriteLayout(l).value;
    if IsOneObject(l.metadata) && NamesOk(l.records) {
      RoundTrip(l);
    }
    hide WriteLayout, ReadLayout, IsOneObject, NamesOk, RecordInRange;
    if ReadLayout(data) == Ok(l) {
      AcceptedLayout(data);
    }
  }

  /** Rewriting a file the reader accepts succeeds exactly if the new payload offset fits its field,
      as it does for every file 32 bytes short of 2^64, and then reads back as the same layout. */
  lemma {:induction false} RewriteIsStable(data: Bytes)
    requires ReadLayout(data).Ok?
    ensures var l := ReadLayout(data).value;
      && (WriteLayout(l).Ok? <==> 36 + |l.metadata| + IndexSize(l.records) < 0x1_0000_0000_0000_0000)
      && (WriteLayout(l).Ok? ==> ReadLayout(WriteLayout(l).value) == Ok(l))
      && (|data| + 32 < 0x1_0000_0000_0000_0000 ==> WriteLayout(l).Ok?)
  {
    var l := ReadLayout(data).value;
    hide WriteLayout, ReadLayout, IsOneObject, NamesOk, RecordInRange, IndexSize;
    AcceptedLayout(data);
    WriterAccepts(l);
    if WriteLayout(l).Ok? {
      RoundTripExactly(l);
    }
  }

  lemma {:induction false} HeaderFields(data: Bytes)
    requires ReadHeader(data).Ok?
    ensures var h := ReadHeader(data).value;
      h.version < 0x1_0000_0000 && h.archId < 0x1_0000_0000 && h.count < 0x1_0000_0000
  {
    Limits();
    hide Limit;
  }

  lemma {:induction false} ReadMonotone(data: Bytes, n: nat, pos: nat, cum: nat)
    requires ReadRecords(data, n, pos, cum).Ok?
    ensures ReadRecords(data, n, pos, cum).value.payloadEnd >= cum
    decreases n
  {
    hide *;
    if n == 0 {
      NoRecords(data, pos, cum);
    } else {
      var one, rest := ReadSplit(data, n, pos, cum);
      ReadMonotone(data, n - 1, one.end, cum + one.record.dataSize);
    }
  }

  lemma {:induction false} PayloadInside(data: Bytes, p: Parsed)
    requires ReadRecords(data, p.header.count, p.metaEnd + 4, p.header.dataOffset) == Ok(p.body)
    requires p.body.payloadEnd == |data|
    ensures p.header.dataOffset <= |data|
  {
    hide ReadRecords;
    ReadMonotone(data, p.header.count, p.metaEnd + 4, p.header.dataOffset);
  }

  lemma {:induction false} MetadataIsObject(data: Bytes, p: Parsed)
    requires p.header.metadataOffset < p.metaEnd <= p.header.dataOffset <= |data|
    requires ObjectEnd(Slice(data, p.header.metadataOffset,
      p.header.dataOffset)) == Some(p.metaEnd - p.header.metadataOffset)
    ensures IsOneObject(Slice(data, p.header.metadataOffset, p.metaEnd))
    ensures |Slice(data, p.header.metadataOffset, p.metaEnd)| <= p.metaEnd
  {
    hide ObjectEnd;
    var region, meta := Slice(data, p.header.metadataOffset, p.header.dataOffset),
      Slice(data, p.header.metadataOffset, p.metaEnd);
    var n := p.metaEnd - p.header.metadataOffset;
    assert meta[..n] == meta == region[..n];
    ObjectEndIgnoresRest(region, meta);
  }
}
