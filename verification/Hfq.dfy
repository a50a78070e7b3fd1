/** The HFQ container of scripts/astrea.py: layout reader, layout writer, and their round trip. */
module Hfq {
  import opened Wrappers
  import opened Bytes
  import opened Json

  datatype Error =
    | NotHfq | NoJsonObject | Truncated | CountMismatch | BadName | PayloadTruncated | SizeMismatch
    | PayloadSize | OutOfRange | BadOffsets | MissingIndex

  /** What reading and writing give: a value, or the error the code raises. */
  type Outcome<+T> = Result<T, Error>

  /** A tensor record. The name is kept as its UTF-8 encoding. */
  datatype Record = Record(name: Bytes, quantType: nat, shape: seq<nat>, groupSize: nat, dataSize: nat, data: Bytes)

  datatype Layout = Layout(version: nat, archId: nat, metadata: Bytes, records: seq<Record>)

  const MAGIC: Bytes := [0x48, 0x46, 0x51, 0x4D]

  predicate Continues(b: byte) {
    0x80 <= b <= 0xBF
  }

  /** Well-formed UTF-8 (Table 3-7 of the Unicode Standard). */
  predicate ValidUtf8(b: Bytes) {
    if b == [] then true
    else if b[0] < 0x80 then ValidUtf8(b[1..])
    else if |b| >= 2 && 0xC2 <= b[0] <= 0xDF then Continues(b[1]) && ValidUtf8(b[2..])
    else if |b| >= 3 && 0xE0 <= b[0] <= 0xEF then
      && Continues(b[1]) && Continues(b[2])
      && (b[0] == 0xE0 ==> b[1] >= 0xA0) && (b[0] == 0xED ==> b[1] <= 0x9F)
      && ValidUtf8(b[3..])
    else if |b| >= 4 && 0xF0 <= b[0] <= 0xF4 then
      && Continues(b[1]) && Continues(b[2]) && Continues(b[3])
      && (b[0] == 0xF0 ==> b[1] >= 0x90) && (b[0] == 0xF4 ==> b[1] <= 0x8F)
      && ValidUtf8(b[4..])
    else false
  }

  function OrTruncated<T>(o: Option<T>): (r: Outcome<T>) {
    match o
    case None => Fail(Truncated)
    case Some(v) => Ok(v)
  }

  function Octet(data: Bytes, pos: nat): (r: Outcome<byte>) {
    if pos < |data| then Ok(data[pos]) else Fail(Truncated)
  }

  /** An index record with the position after it. */
  datatype One = One(record: Record, end: nat)

  /** The records of an index, and where the index and the payloads end. */
  datatype Body = Body(records: seq<Record>, indexEnd: nat, payloadEnd: nat)

  /** What was produced so far, put in front of what the rest gives. */
  function Joined<T>(b: seq<T>, rest: Outcome<seq<T>>): (r: Outcome<seq<T>>)
    ensures b == [] ==> r == rest
    ensures rest == Ok([]) ==> r == Ok(b)
    ensures r.Ok? <==> rest.Ok?
    ensures rest.Ok? ==> r == Ok(b + rest.value)
  {
    match rest
    case Ok(v) =>
      assert [] + v == v && b + [] == b;
      Ok(b + v)
    case Fail(e) => Fail(e)
  }

  /** Records already read, put in front of what the rest of the index gives. */
  function Resumed(records: seq<Record>, rest: Outcome<Body>): (r: Outcome<Body>)
    ensures records == [] ==> r == rest
    ensures rest.Ok? && rest.value.records == [] ==> r == Ok(rest.value.(records := records))
    ensures rest.Ok? ==> r == Ok(rest.value.(records := records + rest.value.records))
  {
    match rest
    case Ok(v) =>
      assert [] + v.records == v.records && records + [] == records;
      Ok(v.(records := records + v.records))
    case Fail(e) => Fail(e)
  }

  // ---- reader ----

  function ReadShape(data: Bytes, pos: nat, n: nat): (r: Outcome<seq<nat>>)
    ensures r.Ok? ==> |r.value| == n
    decreases n
  {
    if n == 0 then Ok([]) else
      match Field(data, pos, 4)
      case None => Fail(Truncated)
      case Some(d) => Joined([d], ReadShape(data, pos + 4, n - 1))
  }

  /** The part of an index record after its name. */
  datatype Fields = Fields(quantType: nat, shape: seq<nat>, groupSize: nat, dataSize: nat, end: nat)

  function ReadFields(data: Bytes, p: nat): (r: Outcome<Fields>)
  {
    var quantType :- Octet(data, p);
    var dims :- Octet(data, p + 1);
    var shape :- ReadShape(data, p + 2, dims);
    var q := p + 2 + 4 * dims;
    var groupSize :- OrTruncated(Field(data, q, 4));
    var dataSize :- OrTruncated(Field(data, q + 4, 8));
    Ok(Fields(quantType, shape, groupSize, dataSize, q + 12))
  }

  /** One index record at pos with its payload at cum; also the position after the record. */
  function ReadRecord(data: Bytes, pos: nat, cum: nat): (r: Outcome<One>)
    ensures r.Ok? ==> |r.value.record.data| == r.value.record.dataSize
  {
    var nameLen :- OrTruncated(Field(data, pos, 2));
    var name := Slice(data, pos + 2, pos + 2 + nameLen);
    if !ValidUtf8(name) then Fail(BadName) else
      var f :- ReadFields(data, pos + 2 + nameLen);
      var payload := Slice(data, cum, cum + f.dataSize);
      if |payload| != f.dataSize then Fail(PayloadTruncated) else
        Ok(One(Record(name, f.quantType, f.shape, f.groupSize, f.dataSize, payload), f.end))
  }

  /** n records; also where the index and the payloads end. */
  function ReadRecords(data: Bytes, n: nat, pos: nat, cum: nat): (r: Outcome<Body>)
    ensures r.Ok? ==> |r.value.records| == n
    decreases n
  {
    if n == 0 then Ok(Body([], pos, cum)) else
      match ReadRecord(data, pos, cum)
      case Fail(e) => Fail(e)
      case Ok(one) => Resumed([one.record], ReadRecords(data, n - 1, one.end, cum + one.record.dataSize))
  }

  /** The fixed 32-byte header. */
  datatype Header = Header(version: nat, archId: nat, count: nat, metadataOffset: nat, dataOffset: nat)

  function ReadHeader(data: Bytes): (r: Outcome<Header>)
    ensures r.Ok? ==> |data| >= 32
  {
    if |data| < 32 || data[0..4] != MAGIC then Fail(NotHfq) else
      Ok(Header(Unpack(data[4..8]), Unpack(data[8..12]), Unpack(data[12..16]), Unpack(data[16..24]),
        Unpack(data[24..32])))
  }

  /** Header, end of the metadata object, and the records with the end positions. */
  datatype Parsed = Parsed(header: Header, metaEnd: nat, body: Body)

  function Parse(data: Bytes): (r: Outcome<Parsed>)
  {
    var h :- ReadHeader(data);
    var region := Slice(data, h.metadataOffset, h.dataOffset);
    match ObjectEnd(region)
    case None => Fail(NoJsonObject)
    case Some(end) =>
      var metaEnd := h.metadataOffset + end;
      var count :- OrTruncated(Field(data, metaEnd, 4));
      if count != h.count then Fail(CountMismatch) else
        var body :- ReadRecords(data, count, metaEnd + 4, h.dataOffset);
        if body.payloadEnd != |data| then Fail(SizeMismatch) else
          Ok(Parsed(h, metaEnd, body))
  }

  function LayoutOf(data: Bytes, p: Parsed): (l: Layout)
  {
    Layout(p.header.version, p.header.archId, Slice(data, p.header.metadataOffset, p.metaEnd), p.body.records)
  }

  function ReadLayout(data: Bytes): (r: Outcome<Layout>)
  {
    var p :- Parse(data);
    Ok(LayoutOf(data, p))
  }

  // ---- writer ----

  function ShapeBytes(shape: seq<nat>): (r: Outcome<Bytes>)
    ensures r.Ok? ==> |r.value| == 4 * |shape|
  {
    if shape == [] then Ok([])
    else if shape[0] >= Limit(4) then Fail(OutOfRange)
    else Joined(Pack(shape[0], 4), ShapeBytes(shape[1..]))
  }

  function RecordBytes(r: Record): (b: Outcome<Bytes>)
  {
    if |r.data| != r.dataSize then Fail(PayloadSize)
    else if |r.name| >= Limit(2) || r.quantType >= 256 || |r.shape| >= 256 then Fail(OutOfRange) else
      var shape :- ShapeBytes(r.shape);
      if r.groupSize >= Limit(4) || r.dataSize >= Limit(8) then Fail(OutOfRange) else
        Ok(Pack(|r.name|, 2) + (r.name
        + ([r.quantType] + ([|r.shape|] + (shape + (Pack(r.groupSize, 4) + Pack(r.dataSize, 8)))))))
  }

  function RecordsBytes(records: seq<Record>): (b: Outcome<Bytes>)
  {
    if records == [] then Ok([]) else
      match RecordBytes(records[0])
      case Fail(e) => Fail(e)
      case Ok(first) => Joined(first, RecordsBytes(records[1..]))
  }

  function Payloads(records: seq<Record>): Bytes {
    if records == [] then [] else records[0].data + Payloads(records[1..])
  }

  function HeaderBytes(h: Header): (b: Bytes)
    requires h.version < Limit(4) && h.archId < Limit(4) && h.count < Limit(4)
    requires h.metadataOffset < Limit(8) && h.dataOffset < Limit(8)
    ensures |b| == 32
  {
    MAGIC + (Pack(h.version, 4) + (Pack(h.archId, 4)
    + (Pack(h.count, 4) + (Pack(h.metadataOffset, 8) + Pack(h.dataOffset, 8)))))
  }

  function WriteLayout(l: Layout): (r: Outcome<Bytes>)
  {
    if |l.records| >= Limit(4) then Fail(OutOfRange) else
      var records :- RecordsBytes(l.records);
      var dataOffset := 32 + |l.metadata| + 4 + |records|;
      if l.version >= Limit(4) || l.archId >= Limit(4) || 32 >= Limit(8) || dataOffset >= Limit(8) then
        Fail(OutOfRange) else
        var h := Header(l.version, l.archId, |l.records|, 32, dataOffset);
        Ok(HeaderBytes(h) + (l.metadata + (Pack(|l.records|, 4) + (records + Payloads(l.records)))))
  }

  // ---- the loops ----

  method ReadDims(data: Bytes, pos0: nat, n: nat) returns (r: Outcome<seq<nat>>, pos: nat)
    ensures r == ReadShape(data, pos0, n)
    ensures r.Ok? ==> pos == pos0 + 4 * n
  {
    var shape: seq<nat> := [];
    pos := pos0;
    for i := 0 to n
      invariant pos == pos0 + 4 * i
      invariant ReadShape(data, pos0, n) ==
        Joined(shape, ReadShape(data, pos, n - i))
    {
      var d := Field(data, pos, 4);
      if d.None? {
        return Fail(Truncated), pos;
      }
      JoinStep(shape, [d.value], ReadShape(data, pos + 4, n - i - 1));
      shape := shape + [d.value];
      pos := pos + 4;
    }
    r := Ok(shape);
  }

  method ReadRecordFields(data: Bytes, pos0: nat) returns (r: Outcome<Fields>)
    ensures r == ReadFields(data, pos0)
  {
    hide ReadShape;
    var pos := pos0;
    if pos >= |data| {
      return Fail(Truncated);
    }
    var quantType := data[pos];
    pos := pos + 1;
    if pos >= |data| {
      return Fail(Truncated);
    }
    var dims := data[pos];
    pos := pos + 1;
    var shape, pos' := ReadDims(data, pos, dims);
    if shape.Fail? {
      return Fail(shape.error);
    }
    pos := pos';
    var groupSize := Field(data, pos, 4);
    if groupSize.None? {
      return Fail(Truncated);
    }
    pos := pos + 4;
    var dataSize := Field(data, pos, 8);
    if dataSize.None? {
      return Fail(Truncated);
    }
    pos := pos + 8;
    r := Ok(Fields(quantType, shape.value, groupSize.value, dataSize.value, pos));
  }

  method ReadOneRecord(data: Bytes, pos0: nat, cum: nat) returns (r: Outcome<One>)
    ensures r == ReadRecord(data, pos0, cum)
  {
    hide ReadFields, ValidUtf8, Slice;
    var pos := pos0;
    var nameLen := Field(data, pos, 2);
    if nameLen.None? {
      return Fail(Truncated);
    }
    pos := pos + 2;
    var name := Slice(data, pos, pos + nameLen.value);
    if !ValidUtf8(name) {
      return Fail(BadName);
    }
    pos := pos + nameLen.value;
    var f := ReadRecordFields(data, pos);
    if f.Fail? {
      return Fail(f.error);
    }
    var payload := Slice(data, cum, cum + f.value.dataSize);
    if |payload| != f.value.dataSize {
      return Fail(PayloadTruncated);
    }
    r := Ok(One(Record(name, f.value.quantType, f.value.shape, f.value.groupSize, f.value.dataSize, payload),
      f.value.end));
  }

  method ReadHfqLayout(data: Bytes) returns (r: Outcome<Layout>)
    ensures r == ReadLayout(data)
  {
    hide ReadRecord, ObjectEnd;
    if |data| < 32 || data[0..4] != MAGIC {
      return Fail(NotHfq);
    }
    var version, archId, count := Unpack(data[4..8]), Unpack(data[8..12]), Unpack(data[12..16]);
    var metadataOffset, dataOffset := Unpack(data[16..24]), Unpack(data[24..32]);
    ghost var h := Header(version, archId, count, metadataOffset, dataOffset);
    assert ReadHeader(data) == Ok(h);
    hide ReadHeader, Unpack;
    var region := Slice(data, metadataOffset, dataOffset);
    var jsonEnd := JsonObjectEnd(region);
    if jsonEnd.None? {
      return Fail(NoJsonObject);
    }
    var pos: nat := metadataOffset + jsonEnd.value;
    var metadata := Slice(data, metadataOffset, pos);
    var indexCount := Field(data, pos, 4);
    if indexCount.None? {
      return Fail(Truncated);
    }
    pos := pos + 4;
    if indexCount.value != count {
      return Fail(CountMismatch);
    }
    ghost var start := pos;
    var records: seq<Record> := [];
    var cumulative: nat := dataOffset;
    for i := 0 to count
      invariant ReadRecords(data, count, start, dataOffset) == Resumed(records,
        ReadRecords(data, count - i, pos, cumulative))
    {
      var one := ReadOneRecord(data, pos, cumulative);
      if one.Fail? {
        return Fail(one.error);
      }
      ResumeStep(records, one.value.record,
        ReadRecords(data, count - i - 1, one.value.end, cumulative + one.value.record.dataSize));
      records := records + [one.value.record];
      pos := one.value.end;
      cumulative := cumulative + one.value.record.dataSize;
    }
    if cumulative != |data| {
      return Fail(SizeMismatch);
    }
    r := Ok(Layout(version, archId, metadata, records));
  }

  lemma ResumeStep(records: seq<Record>, r: Record, rest: Outcome<Body>)
    ensures Resumed(records + [r], rest) == Resumed(records, Resumed([r], rest))
  {
    if rest.Ok? {
      assert (records + [r]) + rest.value.records == records + ([r] + rest.value.records);
    }
  }

  method WriteDims(shape: seq<nat>) returns (r: Outcome<Bytes>)
    ensures r == ShapeBytes(shape)
  {
    var index: Bytes := [];
    for i := 0 to |shape|
      invariant ShapeBytes(shape) == Joined(index, ShapeBytes(shape[i..]))
    {
      if shape[i] >= Limit(4) {
        return Fail(OutOfRange);
      }
      assert shape[i..][1..] == shape[i + 1..];
      JoinStep(index, Pack(shape[i], 4), ShapeBytes(shape[i + 1..]));
      index := index + Pack(shape[i], 4);
    }
    r := Ok(index);
  }

  lemma JoinStep<T>(a: seq<T>, b: seq<T>, rest: Outcome<seq<T>>)
    ensures Joined(a + b, rest) == Joined(a, Joined(b, rest))
  {
    if rest.Ok? {
      assert (a + b) + rest.value == a + (b + rest.value);
    }
  }

  method WriteOneRecord(rec: Record) returns (r: Outcome<Bytes>)
    ensures r == RecordBytes(rec)
  {
    hide Limit, Pack, ShapeBytes;
    if |rec.data| != rec.dataSize {
      return Fail(PayloadSize);
    }
    if |rec.name| >= Limit(2) || rec.quantType >= 256 || |rec.shape| >= 256 {
      return Fail(OutOfRange);
    }
    var index := Pack(|rec.name|, 2);
    index := index + rec.name;
    index := index + [rec.quantType];
    index := index + [|rec.shape|];
    var shape := WriteDims(rec.shape);
    if shape.Fail? {
      return Fail(shape.error);
    }
    index := index + shape.value;
    if rec.groupSize >= Limit(4) || rec.dataSize >= Limit(8) {
      return Fail(OutOfRange);
    }
    index := index + Pack(rec.groupSize, 4);
    index := index + Pack(rec.dataSize, 8);
    assert index == Pack(|rec.name|, 2) + (rec.name + ([rec.quantType] + ([|rec.shape|]
                  + (shape.value + (Pack(rec.groupSize, 4) + Pack(rec.dataSize, 8))))));
    r := Ok(index);
  }

  method WriteHfqLayout(l: Layout) returns (r: Outcome<Bytes>)
    ensures r == WriteLayout(l)
  {
    hide Limit, Pack, RecordBytes;
    if |l.records| >= Limit(4) {
      return Fail(OutOfRange);
    }
    var index: Bytes := [];
    var payloads: seq<Bytes> := [];
    for i := 0 to |l.records|
      invariant RecordsBytes(l.records) == Joined(index, RecordsBytes(l.records[i..]))
      invariant |payloads| == i && forall k :: 0 <= k < i ==> payloads[k] == l.records[k].data
    {
      var one := WriteOneRecord(l.records[i]);
      assert l.records[i..][1..] == l.records[i + 1..];
      if one.Fail? {
        return Fail(one.error);
      }
      JoinStep(index, one.value, RecordsBytes(l.records[i + 1..]));
      index := index + one.value;
      payloads := payloads + [l.records[i].data];
    }
    var metadataOffset := 32;
    var dataOffset := metadataOffset + |l.metadata| + 4 + |index|;
    if l.version >= Limit(4) || l.archId >= Limit(4) || 32 >= Limit(8) || dataOffset >= Limit(8) {
      return Fail(OutOfRange);
    }
    assert RecordsBytes(l.records) == Ok(index);
    hide RecordsBytes;
    var out := HeaderBytes(Header(l.version, l.archId, |l.records|, metadataOffset, dataOffset));
    ghost var header := out;
    ghost var head := out + (l.metadata + (Pack(|l.records|, 4) + index));
    out := out + l.metadata;
    out := out + Pack(|l.records|, 4);
    out := out + index;
    assert out == head;
    hide HeaderBytes;
    assert l.records[0..] == l.records;
    for i := 0 to |payloads|
      invariant out + Payloads(l.records[i..]) == head + Payloads(l.records)
    {
      assert l.records[i..][1..] == l.records[i + 1..];
      assert (out + payloads[i]) + Payloads(l.records[i + 1..]) == out + (payloads[i] + Payloads(l.records[i + 1..]));
      out := out + payloads[i];
    }
    assert out == head + Payloads(l.records)
        == header + (l.metadata + (Pack(|l.records|, 4) + (index + Payloads(l.records))));
    r := Ok(out);
  }
}
