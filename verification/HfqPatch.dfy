/** In-place tensor patching of an HFQ file: the index reader that locates tensors, the patch
    itself, and what a patch leaves alone. */
module HfqPatch {
  import opened Wrappers
  import opened Bytes
  import opened Json
  import opened Hfq
  import opened HfqLaws

  // ---- the index reader ----

  /** A tensor of the index with the position of its payload. */
  datatype Entry = Entry(name: Bytes, fields: Fields, dataOffset: nat)

  function ReadEntry(data: Bytes, pos: nat, cum: nat): (r: Outcome<Entry>)
  {
    var nameLen :- OrTruncated(Field(data, pos, 2));
    var name := Slice(data, pos + 2, pos + 2 + nameLen);
    if !ValidUtf8(name) then Fail(BadName) else
      var f :- ReadFields(data, pos + 2 + nameLen);
      Ok(Entry(name, f, cum))
  }

  function ReadEntries(data: Bytes, n: nat, pos: nat, cum: nat): (r: Outcome<seq<Entry>>)
    decreases n
  {
    if n == 0 then Ok([]) else
      match ReadEntry(data, pos, cum)
      case Fail(e) => Fail(e)
      case Ok(one) => Joined([one], ReadEntries(data, n - 1, one.fields.end, cum + one.fields.dataSize))
  }

  function ReadIndex(data: Bytes): (r: Outcome<seq<Entry>>)
  {
    var h :- ReadHeader(data);
    if h.metadataOffset > h.dataOffset || h.dataOffset > |data| then Fail(BadOffsets) else
      match ObjectEnd(Slice(data, h.metadataOffset, h.dataOffset))
      case None => Fail(NoJsonObject)
      case Some(end) =>
        var pos := h.metadataOffset + end;
        if pos + 4 > h.dataOffset then Fail(MissingIndex) else
          var count :- OrTruncated(Field(data, pos, 4));
          if count != h.count then Fail(CountMismatch) else ReadEntries(data, count, pos + 4, h.dataOffset)
  }

  /** The map from names to entries that the loop fills: a later entry replaces an earlier one. */
  function TensorMap(entries: seq<Entry>): (m: map<Bytes, Entry>)
    ensures forall k :: k in m ==> m[k] in entries && m[k].name == k
    ensures forall e :: e in entries ==> e.name in m
  {
    if entries == [] then map[] else
      var last := entries[|entries| - 1];
      TensorMap(entries[..|entries| - 1])[last.name := last]
  }

  function Mapped(r: Outcome<seq<Entry>>): Outcome<map<Bytes, Entry>> {
    match r
    case Ok(es) => Ok(TensorMap(es))
    case Fail(e) => Fail(e)
  }

  lemma EmptyMap()
    ensures TensorMap([]) == map[]
  {
  }

  lemma MapStep(entries: seq<Entry>, e: Entry)
    ensures TensorMap(entries + [e]) == TensorMap(entries)[e.name := e]
  {
    assert (entries + [e])[..|entries|] == entries;
  }

  method CollectTensors(data: Bytes, n: nat, pos0: nat, base: nat) returns (r: Outcome<map<Bytes, Entry>>)
    ensures r == Mapped(ReadEntries(data, n, pos0, base))
  {
    hide ReadEntry, TensorMap;
    assert TensorMap([]) == map[] by { EmptyMap(); }
    ghost var entries: seq<Entry> := [];
    var tensors: map<Bytes, Entry> := map[];
    var pos: nat, cumulative: nat := pos0, base;
    for i := 0 to n
      invariant ReadEntries(data, n, pos0, base) == Joined(entries, ReadEntries(data, n - i, pos, cumulative))
      invariant tensors == TensorMap(entries)
    {
      var one := ReadEntry(data, pos, cumulative);
      if one.Fail? {
        return Fail(one.error);
      }
      var e := one.value;
      JoinStep(entries, [e], ReadEntries(data, n - i - 1, e.fields.end, cumulative + e.fields.dataSize));
      MapStep(entries, e);
      entries := entries + [e];
      tensors := tensors[e.name := e];
      pos := e.fields.end;
      cumulative := cumulative + e.fields.dataSize;
    }
    r := Ok(tensors);
  }

  method ReadHfqIndex(data: Bytes) returns (r: Outcome<map<Bytes, Entry>>)
    ensures r == Mapped(ReadIndex(data))
  {
    hide ReadEntries, ObjectEnd, ReadHeader, TensorMap;
    var header := ReadHeader(data);
    if header.Fail? {
      return Fail(header.error);
    }
    var h := header.value;
    if h.metadataOffset > h.dataOffset || h.dataOffset > |data| {
      return Fail(BadOffsets);
    }
    var jsonEnd := JsonObjectEnd(Slice(data, h.metadataOffset, h.dataOffset));
    if jsonEnd.None? {
      return Fail(NoJsonObject);
    }
    var pos: nat := h.metadataOffset + jsonEnd.value;
    if pos + 4 > h.dataOffset {
      return Fail(MissingIndex);
    }
    var count := Field(data, pos, 4);
    pos := pos + 4;
    if count.value != h.count {
      return Fail(CountMismatch);
    }
    r := CollectTensors(data, h.count, pos, h.dataOffset);
  }

  // ---- the patch ----

  function Zeros(n: nat): (b: Bytes)
    ensures |b| == n
  {
    seq(n, _ => 0)
  }

  /** A seek to off and a write of packed: overwrites, and extends a file that is too short;
      writing nothing changes nothing. */
  function Patched(data: Bytes, off: nat, packed: Bytes): (r: Bytes)
  {
    if packed == [] then data else
    var head := if off <= |data| then data[..off] else data + Zeros(off - |data|);
    head + packed + (if off + |packed| <= |data| then data[off + |packed|..] else [])
  }

  class HfqFile {
    var bytes: Bytes

    constructor (bytes: Bytes)
      ensures this.bytes == bytes
    {
      this.bytes := bytes;
    }

    /** False, and nothing written, when the packed size is not the recorded one. */
    method PatchTensor(info: Entry, packed: Bytes) returns (ok: bool)
      modifies this
      ensures ok <==> |packed| == info.fields.dataSize
      ensures bytes == if ok then Patched(old(bytes), info.dataOffset, packed) else old(bytes)
    {
      ok := |packed| == info.fields.dataSize;
      if ok && packed != [] {
        var off := info.dataOffset;
        if off > |bytes| {
          bytes := bytes + Zeros(off - |bytes|);
        }
        var tail := if off + |packed| <= |bytes| then bytes[off + |packed|..] else [];
        bytes := bytes[..off] + packed + tail;
      }
    }
  }

  // ---- extents ----

  /** Where the payload of record i starts, for payloads laid out from base. */
  function Offset(rs: seq<Record>, base: nat, i: nat): (off: nat)
    requires i <= |rs|
  {
    if i == 0 then base else Offset(rs, base, i - 1) + rs[i - 1].dataSize
  }

  lemma {:induction false} OffsetTail(rs: seq<Record>, base: nat, i: nat)
    requires 0 < i <= |rs|
    ensures Offset(rs, base, i) == Offset(rs[1..], base + rs[0].dataSize, i - 1)
    decreases i
  {
    if i > 1 {
      OffsetTail(rs, base, i - 1);
    }
  }

  lemma {:induction false} OffsetOrder(rs: seq<Record>, base: nat, i: nat, j: nat)
    requires i <= j <= |rs|
    ensures Offset(rs, base, i) <= Offset(rs, base, j)
    ensures i < j ==> Offset(rs, base, i) + rs[i].dataSize <= Offset(rs, base, j)
    decreases j
  {
    if i < j {
      OffsetOrder(rs, base, i, j - 1);
    }
  }

  /** The entry has the record's name, quant type, shape, group size and payload size. */
  ghost predicate Describes(e: Entry, r: Record) {
    && e.name == r.name && e.fields.quantType == r.quantType && e.fields.shape == r.shape
    && e.fields.groupSize == r.groupSize && e.fields.dataSize == r.dataSize
  }

  /** Entry i describes record i and gives the start of its extent. */
  ghost predicate Locates(es: seq<Entry>, rs: seq<Record>, base: nat) {
    && |es| == |rs|
    && forall i :: 0 <= i < |es| ==> Describes(es[i], rs[i]) && es[i].dataOffset == Offset(rs, base, i)
  }

  lemma {:induction false} LocatesCons(e: Entry, es: seq<Entry>, r: Record, rs: seq<Record>, base: nat)
    requires Describes(e, r) && e.dataOffset == base
    requires Locates(es, rs, base + r.dataSize)
    ensures Locates([e] + es, [r] + rs, base)
  {
    hide Offset;
    var es', rs' := [e] + es, [r] + rs;
    assert rs'[1..] == rs && es'[1..] == es;
    forall i | 0 <= i < |es'|
      ensures Describes(es'[i], rs'[i]) && es'[i].dataOffset == Offset(rs', base, i)
    {
      if i > 0 {
        OffsetTail(rs', base, i);
        assert es'[i] == es[i - 1] && rs'[i] == rs[i - 1];
      } else {
        OffsetZero(rs', base);
      }
    }
  }

  lemma LocatesNothing(base: nat)
    ensures Locates([], [], base)
  {
  }

  lemma OffsetZero(rs: seq<Record>, base: nat)
    ensures Offset(rs, base, 0) == base
  {
  }

  lemma {:induction false} EntriesStep(data: Bytes, n: nat, pos: nat, cum: nat)
    ensures ReadEntries(data, 0, pos, cum) == Ok([])
    ensures n > 0 && ReadEntry(data, pos, cum).Ok? ==>
      var e := ReadEntry(data, pos, cum).value;
      ReadEntries(data, n, pos, cum) == Joined([e], ReadEntries(data, n - 1, e.fields.end, cum + e.fields.dataSize))
  {
    hide ReadEntry;
  }

  /** The index reader finds every record of an accepted body, with the record's own extent. */
  lemma {:induction false} EntriesMatch(data: Bytes, n: nat, pos: nat, cum: nat)
    requires ReadRecords(data, n, pos, cum).Ok?
    ensures ReadEntries(data, n, pos, cum).Ok?
    ensures Locates(ReadEntries(data, n, pos, cum).value, ReadRecords(data, n, pos, cum).value.records, cum)
    decreases n
  {
    hide *;
    EntriesStep(data, n, pos, cum);
    if n == 0 {
      NoRecords(data, pos, cum);
      LocatesNothing(cum);
    } else {
      var one, rest := ReadSplit(data, n, pos, cum);
      var e := EntryOfRecord(data, pos, cum);
      EntriesMatch(data, n - 1, e.fields.end, cum + e.fields.dataSize);
      LocatesCons(e, ReadEntries(data, n - 1, e.fields.end, cum + e.fields.dataSize).value, one.record, rest.records,
        cum);
    }
  }

  lemma {:induction false} EntryOfRecord(data: Bytes, pos: nat, cum: nat) returns (e: Entry)
    requires ReadRecord(data, pos, cum).Ok?
    ensures ReadEntry(data, pos, cum) == Ok(e)
    ensures var one := ReadRecord(data, pos, cum).value;
      Describes(e, one.record) && e.fields.dataSize == one.record.dataSize && e.fields.end == one.end
        && e.dataOffset == cum
  {
    hide ReadFields, ValidUtf8;
    e := ReadEntry(data, pos, cum).value;
  }

  // ---- the frame ----

  /** The header, the metadata and the index all end before the first payload byte. */
  predicate IndexBeforePayloads(p: Parsed) {
    32 <= p.header.dataOffset && p.body.indexEnd <= p.header.dataOffset
  }

  /** The extent starting at off is clear of the header and the index. */
  predicate ExtentClear(p: Parsed, off: nat) {
    32 <= off && p.body.indexEnd <= off
  }

  function WithPayload(rs: seq<Record>, i: nat, packed: Bytes): (r: seq<Record>)
    requires i < |rs|
    ensures |r| == |rs|
  {
    rs[i := rs[i].(data := packed)]
  }

  lemma {:induction false} PayloadsLength(rs: seq<Record>, base: nat)
    requires RecordsBytes(rs).Ok?
    ensures Offset(rs, base, |rs|) == base + |Payloads(rs)|
    decreases |rs|
  {
    hide RecordBytes, RecordsBytes;
    if rs != [] {
      hide Offset, Payloads;
      RecordSizes(rs);
      OffsetTail(rs, base, |rs|);
      PayloadsLength(rs[1..], base + rs[0].dataSize);
      PayloadsMore(rs);
    }
  }

  lemma PayloadsMore(rs: seq<Record>)
    requires rs != []
    ensures |Payloads(rs)| == |rs[0].data| + |Payloads(rs[1..])|
  {
  }

  lemma {:induction false} RecordSizes(rs: seq<Record>)
    requires rs != [] && RecordsBytes(rs).Ok?
    ensures RecordBytes(rs[0]).Ok? && |rs[0].data| == rs[0].dataSize && RecordsBytes(rs[1..]).Ok?
  {
    RecordAccepted(rs[0]);
    hide RecordBytes;
  }

  /** The writer's index bytes depend on payload lengths only. */
  lemma {:induction false} SameIndex(r: Record, packed: Bytes)
    requires |packed| == |r.data|
    ensures RecordBytes(r.(data := packed)) == RecordBytes(r)
  {
    hide ShapeBytes, Pack, Limit;
  }

  lemma {:induction false} ReplacePayload(rs: seq<Record>, i: nat, packed: Bytes, base: nat)
    requires i < |rs| && RecordsBytes(rs).Ok? && |packed| == rs[i].dataSize && NamesOk(rs)
    ensures RecordsBytes(WithPayload(rs, i, packed)) == RecordsBytes(rs) && NamesOk(WithPayload(rs, i, packed))
    ensures var off := Offset(rs, base, i) - base;
      && 0 <= off && off + |packed| <= |Payloads(rs)|
      && Payloads(WithPayload(rs, i, packed)) == Payloads(rs)[..off] + packed + Payloads(rs)[off + |packed|..]
    decreases |rs|
  {
    hide *;
    var r, rest := rs[0], rs[1..];
    FirstRecord(rs);
    assert rs == [r] + rest;
    if i == 0 {
      SameIndex(r, packed);
      var r' := r.(data := packed);
      ConsRecord(r', rest);
      OffsetZero(rs, base);
      assert WithPayload(rs, 0, packed) == [r'] + rest by { ReplaceFirst(rs, packed); }
      SpliceFirst(r.data, Payloads(rest), packed);
    } else {
      ReplacePayload(rest, i - 1, packed, base + r.dataSize);
      OffsetTail(rs, base, i);
      assert WithPayload(rs, i, packed) == [r] + WithPayload(rest, i - 1, packed) by { ReplaceLater(rs, i, packed); }
      ConsRecord(r, WithPayload(rest, i - 1, packed));
      SpliceLater(r.data, Payloads(rest), packed, Offset(rest, base + r.dataSize, i - 1) - base - r.dataSize);
    }
  }

  lemma ReplaceFirst(rs: seq<Record>, packed: Bytes)
    requires rs != []
    ensures WithPayload(rs, 0, packed) == [rs[0].(data := packed)] + rs[1..]
  {
  }

  lemma ReplaceLater(rs: seq<Record>, i: nat, packed: Bytes)
    requires 0 < i < |rs|
    ensures WithPayload(rs, i, packed) == [rs[0]] + WithPayload(rs[1..], i - 1, packed)
  {
  }

  lemma SpliceFirst(a: Bytes, b: Bytes, packed: Bytes)
    requires |packed| == |a|
    ensures (a + b)[..0] + packed + (a + b)[|packed|..] == packed + b
  {
  }

  lemma SpliceLater(a: Bytes, b: Bytes, packed: Bytes, off: nat)
    requires off + |packed| <= |b|
    ensures (a + b)[..|a| + off] + packed + (a + b)[|a| + off + |packed|..] == a
      + (b[..off] + packed + b[off + |packed|..])
  {
  }

  /** A patch inside the payload area, seen from the file's two parts. */
  lemma {:induction false} PatchedParts(data: Bytes, k: nat, off: nat, packed: Bytes)
    requires k <= off && off + |packed| <= |data|
    ensures var d := Patched(data, off, packed);
      && |d| == |data| && d[..k] == data[..k]
      && d[k..] == data[k..][..off - k] + packed + data[k..][off - k + |packed|..]
  {
  }

  lemma {:induction false} AtPrefix(data: Bytes, data': Bytes, k: nat, pos: nat, b: Bytes)
    requires At(data, pos, b) && pos + |b| <= k <= |data| && k <= |data'| && data[..k] == data'[..k]
    ensures At(data', pos, b)
  {
    assert data'[pos..pos + |b|] == data'[..k][pos..pos + |b|] == data[..k][pos..pos + |b|] == data[pos..pos + |b|];
  }

  lemma {:induction false} HeadUnchanged(data: Bytes, data': Bytes, k: nat, p: Parsed)
    requires |data| == |data'| && 32 <= k <= |data| && data[..k] == data'[..k]
    requires ReadHeader(data) == Ok(p.header) && p.header.dataOffset <= k
    requires p.header.metadataOffset <= p.metaEnd && p.metaEnd + 4 <= k
    ensures ReadHeader(data') == Ok(p.header)
    ensures Slice(data', p.header.metadataOffset, p.header.dataOffset)
      == Slice(data, p.header.metadataOffset, p.header.dataOffset)
    ensures Field(data', p.metaEnd, 4) == Field(data, p.metaEnd, 4)
  {
    assert forall a: nat, b: nat :: a <= b <= k ==> data'[a..b] == data'[..k][a..b] && data[a..b] == data[..k][a..b];
  }

  /** The patched file parses with the same header, metadata and index, and just payload i replaced. */
  ghost predicate Rereads(data: Bytes, i: nat, packed: Bytes)
    requires Parse(data).Ok? && i < |Parse(data).value.body.records|
  {
    var p := Parse(data).value;
    Parse(Patched(data, Offset(p.body.records, p.header.dataOffset, i), packed))
      == Ok(p.(body := p.body.(records := WithPayload(p.body.records, i, packed))))
  }

  /** A patch of an extent clear of header and index replaces that payload and nothing else. */
  lemma {:induction false} PatchFrame(data: Bytes, i: nat, packed: Bytes)
    requires Parse(data).Ok? && i < |Parse(data).value.body.records|
    requires var p := Parse(data).value;
      ExtentClear(p, Offset(p.body.records, p.header.dataOffset, i)) && |packed| == p.body.records[i].dataSize
    ensures Rereads(data, i, packed)
  {
    var p := ParseParts(data);
    var off := Offset(p.body.records, p.header.dataOffset, i);
    assert 32 <= off && p.body.indexEnd <= off;
    hide Parse, ReadHeader, ReadRecords, ObjectEnd, Offset, Patched, WithPayload, RecordsBytes, NamesOk, At;
    hide Payloads, Slice, Field;
    AcceptedBody(data, p);
    PatchFrameParts(data, p, i, packed);
  }

  /** The two regions of an accepted file, as the writer's bytes. */
  lemma {:induction false} AcceptedBody(data: Bytes, p: Parsed)
    requires ReadRecords(data, p.header.count, p.metaEnd + 4, p.header.dataOffset) == Ok(p.body)
    requires p.body.payloadEnd == |data| && p.metaEnd + 4 <= |data|
    ensures p.header.dataOffset <= |data| && p.metaEnd + 4 <= p.body.indexEnd
    ensures RecordsBytes(p.body.records).Ok? && NamesOk(p.body.records)
    ensures At(data, p.metaEnd + 4, RecordsBytes(p.body.records).value)
    ensures p.body.indexEnd == p.metaEnd + 4 + |RecordsBytes(p.body.records).value|
    ensures data[p.header.dataOffset..] == Payloads(p.body.records) && |p.body.records| == p.header.count
  {
    hide *;
    PayloadInside(data, p);
    RecordsCanonical(data, p.header.count, p.metaEnd + 4, p.header.dataOffset);
    WholePayload(data, p.header.dataOffset, Payloads(p.body.records));
  }

  lemma {:induction false} PatchFrameParts(data: Bytes, p: Parsed, i: nat, packed: Bytes)
    requires ReadHeader(data) == Ok(p.header) && p.header.metadataOffset < p.metaEnd
    requires ObjectEnd(Slice(data, p.header.metadataOffset, p.header.dataOffset))
      == Some(p.metaEnd - p.header.metadataOffset)
    requires Field(data, p.metaEnd, 4) == Some(p.header.count)
    requires p.metaEnd <= p.header.dataOffset <= |data| && p.body.payloadEnd == |data|
      && p.metaEnd + 4 <= p.body.indexEnd
    requires RecordsBytes(p.body.records).Ok? && NamesOk(p.body.records) && |p.body.records| == p.header.count
    requires At(data, p.metaEnd + 4, RecordsBytes(p.body.records).value)
    requires p.body.indexEnd == p.metaEnd + 4 + |RecordsBytes(p.body.records).value|
    requires data[p.header.dataOffset..] == Payloads(p.body.records)
    requires i < |p.body.records| && |packed| == p.body.records[i].dataSize
    requires var off := Offset(p.body.records, p.header.dataOffset, i); 32 <= off && p.body.indexEnd <= off
    ensures Parse(Patched(data, Offset(p.body.records, p.header.dataOffset, i), packed))
         == Ok(p.(body := p.body.(records := WithPayload(p.body.records, i, packed))))
  {
    hide *;
    var k, rs, pos := p.header.dataOffset, p.body.records, p.metaEnd + 4;
    var off := Offset(rs, k, i);
    var data' := Patched(data, off, packed);
    ReplacePayload(rs, i, packed, k);
    PatchedParts(data, k, off, packed);
    PatchedParts(data, off, off, packed);
    AtPrefix(data, data', off, pos, RecordsBytes(rs).value);
    WholePayloadAt(data', k);
    var rs' := WithPayload(rs, i, packed);
    RecordsRoundTrip(data', pos, k, rs');
    HeadUnchanged(data, data', off, p);
    ParseFrom(data', p.(body := p.body.(records := rs')));
  }

  lemma WholePayload(data: Bytes, k: nat, b: Bytes)
    requires At(data, k, b) && |data| == k + |b|
    ensures data[k..] == b
  {
  }

  lemma WholePayloadAt(data: Bytes, k: nat)
    requires k <= |data|
    ensures At(data, k, data[k..])
  {
  }

  lemma {:induction false} ParseFrom(data: Bytes, p: Parsed)
    requires ReadHeader(data) == Ok(p.header) && p.header.metadataOffset < p.metaEnd
    requires ObjectEnd(Slice(data, p.header.metadataOffset, p.header.dataOffset))
      == Some(p.metaEnd - p.header.metadataOffset)
    requires Field(data, p.metaEnd, 4) == Some(p.header.count)
    requires ReadRecords(data, p.header.count, p.metaEnd + 4, p.header.dataOffset) == Ok(p.body)
    requires p.body.payloadEnd == |data|
    ensures Parse(data) == Ok(p)
  {
    hide ReadHeader, ObjectEnd, ReadRecords, Slice;
  }

  // ---- patching by name ----

  /** Record i is the last of its name. */
  ghost predicate LastNamed(rs: seq<Record>, i: nat) {
    i < |rs| && forall j :: i < j < |rs| ==> rs[j].name != rs[i].name
  }

  lemma {:induction false} LastWins(es: seq<Entry>, i: nat)
    requires i < |es| && forall j :: i < j < |es| ==> es[j].name != es[i].name
    ensures es[i].name in TensorMap(es) && TensorMap(es)[es[i].name] == es[i]
    decreases |es|
  {
    hide TensorMap;
    var n := |es| - 1;
    assert es == es[..n] + [es[n]];
    MapStep(es[..n], es[n]);
    if i < n {
      LastWins(es[..n], i);
    }
  }

  /** The map leads from each name to the extent of the last record of that name. */
  lemma {:induction false} LookupFindsRecord(es: seq<Entry>, rs: seq<Record>, base: nat, i: nat)
    requires Locates(es, rs, base) && LastNamed(rs, i)
    ensures rs[i].name in TensorMap(es) && TensorMap(es)[rs[i].name] == es[i]
    ensures var e := TensorMap(es)[rs[i].name];
      && e.name == rs[i].name && e.fields.quantType == rs[i].quantType && e.fields.shape == rs[i].shape
      && e.fields.groupSize == rs[i].groupSize && e.fields.dataSize == rs[i].dataSize
      && e.dataOffset == Offset(rs, base, i)
  {
    hide Offset, TensorMap;
    LastWins(es, i);
  }

  /** One patch through the index: the last tensor of the name looked up is the one replaced. */
  lemma {:induction false} PatchByName(data: Bytes, i: nat, packed: Bytes)
    requires Parse(data).Ok? && ReadIndex(data).Ok?
    requires var p := Parse(data).value;
      && LastNamed(p.body.records, i) && |packed| == p.body.records[i].dataSize
      && (packed == [] || ExtentClear(p, Offset(p.body.records, p.header.dataOffset, i)))
    ensures var p := Parse(data).value;
      var m := TensorMap(ReadIndex(data).value);
      && p.body.records[i].name in m
      && m[p.body.records[i].name].fields.dataSize == p.body.records[i].dataSize
      && Parse(Patched(data, m[p.body.records[i].name].dataOffset, packed))
         == Ok(p.(body := p.body.(records := WithPayload(p.body.records, i, packed))))
  {
    var p := ParseParts(data);
    IndexOfParsed(data, p);
    hide ReadIndex, Parse, TensorMap, ReadRecords, ReadHeader, ReadEntries, Patched, WithPayload, ExtentClear;
    LookupFindsRecord(ReadIndex(data).value, p.body.records, p.header.dataOffset, i);
    PatchStep(data, p, i, packed);
  }

  lemma {:induction false} IndexOfParsed(data: Bytes, p: Parsed)
    requires ReadIndex(data).Ok? && ReadHeader(data) == Ok(p.header) && p.header.metadataOffset < p.metaEnd
    requires ObjectEnd(Slice(data, p.header.metadataOffset, p.header.dataOffset))
      == Some(p.metaEnd - p.header.metadataOffset)
    requires ReadRecords(data, p.header.count, p.metaEnd + 4, p.header.dataOffset) == Ok(p.body)
    ensures Locates(ReadIndex(data).value, p.body.records, p.header.dataOffset)
  {
    hide ReadHeader, ObjectEnd, ReadRecords, ReadEntries, Slice, Locates;
    EntriesMatch(data, p.header.count, p.metaEnd + 4, p.header.dataOffset);
  }

  // ---- any set of patches, in any order ----

  datatype Patch = Patch(index: nat, packed: Bytes)

  ghost predicate Fits(rs: seq<Record>, ps: seq<Patch>) {
    forall k :: 0 <= k < |ps| ==> ps[k].index < |rs| && |ps[k].packed| == rs[ps[k].index].dataSize
  }

  ghost predicate DistinctTargets(ps: seq<Patch>) {
    forall j, k :: 0 <= j < k < |ps| ==> ps[j].index != ps[k].index
  }

  /** The patches written one after another, each at the extent the index gave. */
  ghost function PatchAll(data: Bytes, rs: seq<Record>, base: nat, ps: seq<Patch>): (r: Bytes)
    requires Fits(rs, ps)
    decreases |ps|
  {
    if ps == [] then data else
      PatchAll(Patched(data, Offset(rs, base, ps[0].index), ps[0].packed), rs, base, ps[1..])
  }

  ghost function ReplaceAll(rs: seq<Record>, ps: seq<Patch>): (r: seq<Record>)
    requires Fits(rs, ps)
    ensures |r| == |rs|
    decreases |ps|
  {
    if ps == [] then rs else ReplaceAll(WithPayload(rs, ps[0].index, ps[0].packed), ps[1..])
  }

  lemma {:induction false} SameOffsets(rs: seq<Record>, i: nat, packed: Bytes, base: nat, j: nat)
    requires i < |rs| && j <= |rs|
    ensures Offset(WithPayload(rs, i, packed), base, j) == Offset(rs, base, j)
    decreases j
  {
    if j > 0 {
      SameOffsets(rs, i, packed, base, j - 1);
    }
  }

  lemma {:induction false} SamePatches(data: Bytes, rs: seq<Record>, i: nat, packed: Bytes, base: nat, ps: seq<Patch>)
    requires Fits(rs, ps) && i < |rs|
    ensures Fits(WithPayload(rs, i, packed), ps)
    ensures PatchAll(data, WithPayload(rs, i, packed), base, ps) == PatchAll(data, rs, base, ps)
    decreases |ps|
  {
    if ps != [] {
      hide Offset, Patched;
      SameOffsets(rs, i, packed, base, ps[0].index);
      SamePatches(Patched(data, Offset(rs, base, ps[0].index), ps[0].packed), rs, i, packed, base, ps[1..]);
    }
  }

  /** Every extent is clear when the index ends before the payload area. */
  lemma {:induction false} PatchInArea(data: Bytes, p: Parsed, i: nat, packed: Bytes)
    requires Parse(data) == Ok(p) && IndexBeforePayloads(p) && i < |p.body.records|
      && |packed| == p.body.records[i].dataSize
    ensures Parse(Patched(data, Offset(p.body.records, p.header.dataOffset, i), packed))
         == Ok(p.(body := p.body.(records := WithPayload(p.body.records, i, packed))))
    ensures Rereads(data, i, packed)
  {
    hide Parse, Offset, Patched, WithPayload;
    OffsetOrder(p.body.records, p.header.dataOffset, 0, i);
    OffsetZero(p.body.records, p.header.dataOffset);
    PatchFrame(data, i, packed);
  }

  /** Every patch that writes something writes clear of the header and the index. */
  ghost predicate AllClear(p: Parsed, ps: seq<Patch>)
    requires Fits(p.body.records, ps)
  {
    forall k :: 0 <= k < |ps| ==>
      ps[k].packed == [] || ExtentClear(p, Offset(p.body.records, p.header.dataOffset, ps[k].index))
  }

  /** The patched file parses with the same header, metadata and index, and just those payloads replaced. */
  ghost predicate RereadsAll(data: Bytes, ps: seq<Patch>)
    requires Parse(data).Ok? && Fits(Parse(data).value.body.records, ps)
  {
    var p := Parse(data).value;
    Parse(PatchAll(data, p.body.records, p.header.dataOffset, ps))
      == Ok(p.(body := p.body.(records := ReplaceAll(p.body.records, ps))))
  }

  /** One patch of the sequence: an empty one changes nothing, a clear one replaces its payload. */
  lemma {:induction false} PatchStep(data: Bytes, p: Parsed, i: nat, packed: Bytes)
    requires Parse(data) == Ok(p) && i < |p.body.records| && |packed| == p.body.records[i].dataSize
    requires packed == [] || ExtentClear(p, Offset(p.body.records, p.header.dataOffset, i))
    ensures var d := Patched(data, Offset(p.body.records, p.header.dataOffset, i), packed);
      && Parse(d) == Ok(p.(body := p.body.(records := WithPayload(p.body.records, i, packed))))
      && |d| == |data| && p.header.dataOffset <= |d| && d[..p.header.dataOffset] == data[..p.header.dataOffset]
  {
    var rs, base := p.body.records, p.header.dataOffset;
    var off := Offset(rs, base, i);
    if packed == [] {
      EmptyPayload(data, p, i);
    } else {
      PatchFrame(data, i, packed);
      ParsedAs(data, p, i, packed);
    }
    hide *;
    ExtentInside(data, p, i);
    OffsetOrder(rs, base, 0, i);
    OffsetZero(rs, base);
    PatchedParts(data, base, off, packed);
  }

  lemma {:induction false} EmptyPayload(data: Bytes, p: Parsed, i: nat)
    requires Parse(data) == Ok(p) && i < |p.body.records| && p.body.records[i].dataSize == 0
    ensures Patched(data, Offset(p.body.records, p.header.dataOffset, i), []) == data
    ensures p.(body := p.body.(records := WithPayload(p.body.records, i, []))) == p
  {
    PayloadSize(data, p, i);
    hide Parse, Offset;
    assert p.body.records[i].data == [];
    assert WithPayload(p.body.records, i, []) == p.body.records;
  }

  lemma {:induction false} PayloadSize(data: Bytes, p: Parsed, i: nat)
    requires Parse(data) == Ok(p) && i < |p.body.records|
    ensures |p.body.records[i].data| == p.body.records[i].dataSize
  {
    hide *;
    var p' := ParseParts(data);
    AcceptedBody(data, p);
    SizeOfRecord(p.body.records, i);
  }

  lemma {:induction false} SizeOfRecord(rs: seq<Record>, i: nat)
    requires RecordsBytes(rs).Ok? && i < |rs|
    ensures |rs[i].data| == rs[i].dataSize
    decreases |rs|
  {
    hide RecordsBytes, RecordBytes;
    RecordSizes(rs);
    if i > 0 {
      SizeOfRecord(rs[1..], i - 1);
    }
  }

  lemma {:induction false} ClearAfter(p: Parsed, q: Parsed, ps: seq<Patch>)
    requires ps != [] && Fits(p.body.records, ps) && AllClear(p, ps)
    requires q == p.(body := p.body.(records := WithPayload(p.body.records, ps[0].index, ps[0].packed)))
    ensures Fits(q.body.records, ps[1..]) && AllClear(q, ps[1..])
  {
    hide Offset, ExtentClear;
    forall k | 0 <= k < |ps[1..]|
      ensures ps[1..][k].index < |q.body.records| && |ps[1..][k].packed| == q.body.records[ps[1..][k].index].dataSize
      ensures ps[1..][k].packed == [] || ExtentClear(q, Offset(q.body.records, q.header.dataOffset, ps[1..][k].index))
    {
      assert ps[1..][k] == ps[k + 1];
      SameOffsets(p.body.records, ps[0].index, ps[0].packed, p.header.dataOffset, ps[k + 1].index);
      ClearKept(p, q, Offset(p.body.records, p.header.dataOffset, ps[k + 1].index));
    }
  }

  lemma ClearKept(p: Parsed, q: Parsed, off: nat)
    requires q.body.indexEnd == p.body.indexEnd
    ensures ExtentClear(q, off) == ExtentClear(p, off)
  {
  }

  /** Patching any sequence of tensors whose extents are clear re-reads as the layout with just those
      payloads replaced, and keeps every byte before the payload area. */
  lemma {:induction false} PatchesFrame(data: Bytes, ps: seq<Patch>)
    requires Parse(data).Ok? && Fits(Parse(data).value.body.records, ps) && AllClear(Parse(data).value, ps)
    ensures RereadsAll(data, ps)
    ensures var p := Parse(data).value;
      var d := PatchAll(data, p.body.records, p.header.dataOffset, ps);
      && |d| == |data| && p.header.dataOffset <= |d| && d[..p.header.dataOffset] == data[..p.header.dataOffset]
    decreases |ps|
  {
    var p := Parse(data).value;
    if ps == [] {
      hide Parse;
      PayloadPart(data);
    } else {
      var rs, base, one := p.body.records, p.header.dataOffset, ps[0];
      var d := Patched(data, Offset(rs, base, one.index), one.packed);
      var q := p.(body := p.body.(records := WithPayload(rs, one.index, one.packed)));
      hide Parse, Offset, Patched, WithPayload, ExtentClear;
      PatchStep(data, p, one.index, one.packed);
      ClearAfter(p, q, ps);
      SamePatches(d, rs, one.index, one.packed, base, ps[1..]);
      PatchesFrame(d, ps[1..]);
    }
  }

  // ---- byte by byte ----

  /** Patch k writes byte b. */
  predicate Writes(rs: seq<Record>, base: nat, q: Patch, b: nat)
    requires q.index < |rs|
  {
    Offset(rs, base, q.index) <= b < Offset(rs, base, q.index) + |q.packed|
  }

  lemma {:induction false} PatchedByte(data: Bytes, off: nat, packed: Bytes, b: nat)
    ensures var d := Patched(data, off, packed);
      && |d| == (if packed == [] || off + |packed| <= |data| then |data| else off + |packed|)
      && (b < |d| ==> d[b] == if off <= b < off + |packed| then packed[b - off] else if b < |data| then data[b] else 0)
  {
  }

  /** Extents of different tensors are disjoint. */
  lemma {:induction false} OneWriter(rs: seq<Record>, base: nat, p: Patch, q: Patch, b: nat)
    requires p.index < |rs| && |p.packed| == rs[p.index].dataSize
    requires q.index < |rs| && |q.packed| == rs[q.index].dataSize
    requires Writes(rs, base, p, b) && Writes(rs, base, q, b)
    ensures p.index == q.index
  {
    hide Offset;
    if p.index < q.index {
      OffsetOrder(rs, base, p.index, q.index);
    } else if q.index < p.index {
      OffsetOrder(rs, base, q.index, p.index);
    }
  }

  lemma PatchAllStep(data: Bytes, rs: seq<Record>, base: nat, ps: seq<Patch>)
    requires Fits(rs, ps)
    ensures ps == [] ==> PatchAll(data, rs, base, ps) == data
    ensures ps != [] ==>
      PatchAll(data, rs, base, ps)
      == PatchAll(Patched(data, Offset(rs, base, ps[0].index), ps[0].packed), rs, base, ps[1..])
  {
    hide Offset, Patched;
  }

  /** Byte b of the patched file: from the one patch that writes it, else the old byte, else a zero of the
      extension. */
  lemma {:induction false} PatchAllByte(data: Bytes, rs: seq<Record>, base: nat, ps: seq<Patch>, b: nat)
    requires Fits(rs, ps) && DistinctTargets(ps)
    ensures var d := PatchAll(data, rs, base, ps);
      b < |d| ==>
        && (forall k :: 0 <= k < |ps| && Writes(rs, base, ps[k], b) ==>
              d[b] == ps[k].packed[b - Offset(rs, base, ps[k].index)])
        && ((forall k :: 0 <= k < |ps| ==> !Writes(rs, base, ps[k], b)) ==> d[b] == if b < |data| then data[b] else 0)
    decreases |ps|
  {
    hide Offset, Patched, PatchAll;
    PatchAllStep(data, rs, base, ps);
    if ps != [] {
      var rest, off := ps[1..], Offset(rs, base, ps[0].index);
      var d := Patched(data, off, ps[0].packed);
      assert forall k :: 0 < k < |ps| ==> ps[k] == rest[k - 1];
      PatchedByte(data, off, ps[0].packed, b);
      PatchAllByte(d, rs, base, rest, b);
      if Writes(rs, base, ps[0], b) {
        forall k | 0 <= k < |rest|
          ensures !Writes(rs, base, rest[k], b)
        {
          if Writes(rs, base, rest[k], b) {
            OneWriter(rs, base, ps[0], ps[k + 1], b);
          }
        }
      }
    }
  }

  /** The patched file ends where the old one did or where the furthest write ends. */
  lemma {:induction false} PatchAllLength(data: Bytes, rs: seq<Record>, base: nat, ps: seq<Patch>)
    requires Fits(rs, ps)
    ensures var n := |PatchAll(data, rs, base, ps)|;
      && n >= |data|
      && (forall k :: 0 <= k < |ps| && ps[k].packed != [] ==> Offset(rs, base, ps[k].index) + |ps[k].packed| <= n)
      && (n == |data| ||
          exists k :: 0 <= k < |ps| && ps[k].packed != [] && Offset(rs, base, ps[k].index) + |ps[k].packed| == n)
    decreases |ps|
  {
    hide Offset, Patched, PatchAll;
    PatchAllStep(data, rs, base, ps);
    if ps != [] {
      var rest, off := ps[1..], Offset(rs, base, ps[0].index);
      var d := Patched(data, off, ps[0].packed);
      assert forall k :: 0 < k < |ps| ==> ps[k] == rest[k - 1];
      PatchedByte(data, off, ps[0].packed, 0);
      PatchAllLength(d, rs, base, rest);
      if k :| 0 <= k < |rest| && rest[k].packed != []
              && Offset(rs, base, rest[k].index) + |rest[k].packed| == |PatchAll(data, rs, base, ps)| {
        assert ps[k + 1] == rest[k];
      }
    }
  }

  lemma {:induction false} SameLength(data: Bytes, rs: seq<Record>, base: nat, ps: seq<Patch>, qs: seq<Patch>)
    requires Fits(rs, ps) && Fits(rs, qs) && forall x :: x in ps ==> x in qs
    ensures |PatchAll(data, rs, base, ps)| <= |PatchAll(data, rs, base, qs)|
  {
    hide Offset, PatchAll;
    PatchAllLength(data, rs, base, ps);
    PatchAllLength(data, rs, base, qs);
    if k :| 0 <= k < |ps| && ps[k].packed != []
            && Offset(rs, base, ps[k].index) + |ps[k].packed| == |PatchAll(data, rs, base, ps)| {
      assert ps[k] in qs;
    }
  }

  /** The final file does not depend on the order in which distinct tensors are patched, wherever their
      extents lie: in the index, in the payloads or past the end of the file. */
  lemma {:induction false} PatchOrderIrrelevant(data: Bytes, rs: seq<Record>, base: nat, ps: seq<Patch>,
                                                qs: seq<Patch>)
    requires Fits(rs, ps) && Fits(rs, qs) && DistinctTargets(ps) && DistinctTargets(qs)
    requires forall x :: x in ps <==> x in qs
    ensures PatchAll(data, rs, base, ps) == PatchAll(data, rs, base, qs)
  {
    var d, e := PatchAll(data, rs, base, ps), PatchAll(data, rs, base, qs);
    hide PatchAll;
    SameLength(data, rs, base, ps, qs);
    SameLength(data, rs, base, qs, ps);
    forall b | 0 <= b < |d|
      ensures d[b] == e[b]
    {
      PatchAllByte(data, rs, base, ps, b);
      PatchAllByte(data, rs, base, qs, b);
      hide Writes;
      if k :| 0 <= k < |ps| && Writes(rs, base, ps[k], b) {
        assert ps[k] in qs;
      } else {
        forall k | 0 <= k < |qs|
          ensures !Writes(rs, base, qs[k], b)
        {
          assert qs[k] in ps;
        }
      }
    }
  }

  lemma {:induction false} PayloadPart(data: Bytes)
    requires Parse(data).Ok?
    ensures var p := Parse(data).value;
      p.header.dataOffset <= |data|
      && data[p.header.dataOffset..] == Payloads(p.body.records)
  {
    hide *;
    var p := ParseParts(data);
    AcceptedBody(data, p);
  }

  // ---- exactly when a patch is safe ----

  /** Two parses with the same header and the same records have the same header, count and index bytes. */
  lemma {:induction false} ParseFixesIndex(data: Bytes, d: Bytes, p: Parsed, q: Parsed, k: nat)
    requires Parse(data) == Ok(p) && Parse(d) == Ok(q) && q.header == p.header && q.metaEnd == p.metaEnd
    requires RecordsBytes(q.body.records) == RecordsBytes(p.body.records)
    requires k < 32 || p.metaEnd <= k < p.body.indexEnd
    ensures k < |data| && k < |d| && d[k] == data[k]
  {
    hide *;
    var p' := ParseParts(data);
    var q' := ParseParts(d);
    AcceptedBody(data, p);
    AcceptedBody(d, q);
    if k < 32 {
      HeaderFixed(data, d);
      assert data[k] == data[..32][k] && d[k] == d[..32][k];
    } else if k < p.metaEnd + 4 {
      FieldFixed(data, d, p.metaEnd, k);
    } else {
      AtFixed(data, d, p.metaEnd + 4, RecordsBytes(p.body.records).value, k);
    }
  }

  lemma {:induction false} FieldFixed(data: Bytes, d: Bytes, pos: nat, k: nat)
    requires Field(data, pos, 4).Some? && Field(d, pos, 4) == Field(data, pos, 4) && pos <= k < pos + 4
    ensures k < |data| && k < |d| && d[k] == data[k]
  {
    UnpackInjective(data[pos..pos + 4], d[pos..pos + 4]);
    assert data[k] == data[pos..pos + 4][k - pos] && d[k] == d[pos..pos + 4][k - pos];
  }

  lemma {:induction false} AtFixed(data: Bytes, d: Bytes, pos: nat, b: Bytes, k: nat)
    requires At(data, pos, b) && At(d, pos, b) && pos <= k < pos + |b|
    ensures k < |data| && k < |d| && d[k] == data[k]
  {
    assert data[k] == data[pos..pos + |b|][k - pos] && d[k] == d[pos..pos + |b|][k - pos];
  }

  lemma {:induction false} HeaderFixed(data: Bytes, d: Bytes)
    requires ReadHeader(data).Ok? && ReadHeader(d) == ReadHeader(data)
    ensures d[..32] == data[..32]
  {
    UnpackInjective(data[4..8], d[4..8]);
    UnpackInjective(data[8..12], d[8..12]);
    UnpackInjective(data[12..16], d[12..16]);
    UnpackInjective(data[16..24], d[16..24]);
    UnpackInjective(data[24..32], d[24..32]);
    hide Unpack;
    HeaderPieces(data);
    HeaderPieces(d);
  }

  lemma HeaderPieces(data: Bytes)
    requires |data| >= 32
    ensures data[..32] == data[0..4] + data[4..8] + data[8..12] + data[12..16] + data[16..24] + data[24..32]
  {
  }

  /** Packed bytes for tensor i that differ from the file in their first byte. */
  lemma {:induction false} Different(data: Bytes, off: nat, size: nat) returns (packed: Bytes)
    requires 0 < size && off + size <= |data|
    ensures |packed| == size && off < |Patched(data, off, packed)| && Patched(data, off, packed)[off] != data[off]
  {
    packed := [if data[off] == 0 then 1 else 0] + data[off + 1..off + size];
  }

  /** A payload that an extent reaching into the header or the index cannot take. */
  lemma {:induction false} NotClear(data: Bytes, p: Parsed, i: nat) returns (packed: Bytes)
    requires Parse(data) == Ok(p) && i < |p.body.records| && p.body.records[i].dataSize > 0
    requires !ExtentClear(p, Offset(p.body.records, p.header.dataOffset, i))
    ensures |packed| == p.body.records[i].dataSize && !Rereads(data, i, packed)
  {
    var off := Offset(p.body.records, p.header.dataOffset, i);
    assert off < 32 || off < p.body.indexEnd;
    hide *;
    ExtentInside(data, p, i);
    packed := Different(data, off, p.body.records[i].dataSize);
    if Rereads(data, i, packed) {
      ParsedAs(data, p, i, packed);
      SameParse(data, p, i, packed);
      ParseFixesIndex(data, Patched(data, off, packed), p,
        p.(body := p.body.(records := WithPayload(p.body.records, i, packed))), off);
    }
  }

  lemma {:induction false} SameParse(data: Bytes, p: Parsed, i: nat, packed: Bytes)
    requires Parse(data) == Ok(p) && i < |p.body.records| && |packed| == p.body.records[i].dataSize
    ensures RecordsBytes(WithPayload(p.body.records, i, packed)) == RecordsBytes(p.body.records)
  {
    hide *;
    var p' := ParseParts(data);
    AcceptedBody(data, p);
    ReplacePayload(p.body.records, i, packed, p.header.dataOffset);
  }

  lemma ParsedAs(data: Bytes, p: Parsed, i: nat, packed: Bytes)
    requires Parse(data) == Ok(p) && i < |p.body.records| && Rereads(data, i, packed)
    ensures Parse(Patched(data, Offset(p.body.records, p.header.dataOffset, i), packed))
         == Ok(p.(body := p.body.(records := WithPayload(p.body.records, i, packed))))
  {
    hide Parse, Offset, Patched, WithPayload;
  }

  lemma {:induction false} ExtentInside(data: Bytes, p: Parsed, i: nat)
    requires Parse(data) == Ok(p) && i < |p.body.records|
    ensures p.metaEnd <= Offset(p.body.records, p.header.dataOffset, i)
    ensures Offset(p.body.records, p.header.dataOffset, i) + p.body.records[i].dataSize <= |data|
  {
    hide *;
    var p' := ParseParts(data);
    AcceptedBody(data, p);
    PayloadsLength(p.body.records, p.header.dataOffset);
    OffsetOrder(p.body.records, p.header.dataOffset, 0, i);
    OffsetOrder(p.body.records, p.header.dataOffset, i, |p.body.records|);
    OffsetZero(p.body.records, p.header.dataOffset);
  }

  /** Exactly when a non-empty tensor can be patched with every payload of its size: when its extent
      starts after the header and the index. */
  lemma {:induction false} PatchableExactlyWhenClear(data: Bytes, i: nat)
    requires Parse(data).Ok? && i < |Parse(data).value.body.records| && Parse(data).value.body.records[i].dataSize > 0
    ensures var p := Parse(data).value;
      (forall packed: Bytes :: |packed| == p.body.records[i].dataSize ==> Rereads(data, i, packed))
      <==> ExtentClear(p, Offset(p.body.records, p.header.dataOffset, i))
  {
    var p := Parse(data).value;
    hide Parse, Offset, Rereads, ExtentClear;
    if ExtentClear(p, Offset(p.body.records, p.header.dataOffset, i)) {
      forall packed: Bytes | |packed| == p.body.records[i].dataSize
        ensures Rereads(data, i, packed)
      {
        PatchFrame(data, i, packed);
      }
    } else {
      var packed := NotClear(data, p, i);
    }
  }

  // ---- exactly when a sequence of patches is safe ----

  ghost predicate Targets(ps: seq<Patch>, targets: seq<nat>) {
    |ps| == |targets| && forall k :: 0 <= k < |ps| ==> ps[k].index == targets[k]
  }

  /** Packed for tensor i, and for every other target what the file already holds. */
  function Kept(rs: seq<Record>, i: nat, packed: Bytes, targets: seq<nat>): (ps: seq<Patch>)
    requires forall k :: 0 <= k < |targets| ==> targets[k] < |rs|
    ensures Targets(ps, targets)
  {
    seq(|targets|, k requires 0 <= k < |targets| =>
      Patch(targets[k], if targets[k] == i then packed else rs[targets[k]].data))
  }

  lemma Overwrite(x: Bytes, off: nat, b: Bytes)
    requires At(x, off, b)
    ensures Patched(x, off, b) == x
  {
  }

  /** The file holds each payload at its extent. */
  lemma {:induction false} PayloadAt(data: Bytes, p: Parsed, j: nat)
    requires Parse(data) == Ok(p) && j < |p.body.records|
    ensures At(data, Offset(p.body.records, p.header.dataOffset, j), p.body.records[j].data)
    ensures |p.body.records[j].data| == p.body.records[j].dataSize
  {
    hide *;
    var p' := ParseParts(data);
    var rs, base := p.body.records, p.header.dataOffset;
    AcceptedBody(data, p);
    SizeOfRecord(rs, j);
    ReplacePayload(rs, j, rs[j].data, base);
    SameRecords(rs, j);
    OffsetOrder(rs, base, 0, j);
    OffsetZero(rs, base);
    InTheMiddle(data, base, Offset(rs, base, j), rs[j].data);
  }

  lemma SameRecords(rs: seq<Record>, j: nat)
    requires j < |rs|
    ensures WithPayload(rs, j, rs[j].data) == rs
  {
  }

  lemma {:induction false} InTheMiddle(data: Bytes, base: nat, off: nat, b: Bytes)
    requires base <= off && off + |b| <= |data|
    requires data[base..] == data[base..][..off - base] + b + data[base..][off - base + |b|..]
    ensures At(data, off, b)
  {
    var rest := data[base..];
    assert rest[off - base..off - base + |b|] == b;
    assert data[off..off + |b|] == rest[off - base..off - base + |b|];
  }

  /** A patch of tensor i leaves the payload of every other tensor. */
  lemma {:induction false} OthersStay(data: Bytes, rs: seq<Record>, base: nat, i: nat, packed: Bytes, j: nat)
    requires i < |rs| && j < |rs| && i != j && |packed| == rs[i].dataSize && |rs[j].data| == rs[j].dataSize
    requires At(data, Offset(rs, base, j), rs[j].data)
    ensures At(Patched(data, Offset(rs, base, i), packed), Offset(rs, base, j), rs[j].data)
  {
    var o, b := Offset(rs, base, j), rs[j].data;
    var d := Patched(data, Offset(rs, base, i), packed);
    if i < j {
      OffsetOrder(rs, base, i, j);
    } else {
      OffsetOrder(rs, base, j, i);
    }
    hide Offset, Patched;
    PatchedByte(data, Offset(rs, base, i), packed, 0);
    forall k | 0 <= k < |b|
      ensures d[o + k] == b[k]
    {
      PatchedByte(data, Offset(rs, base, i), packed, o + k);
      assert data[o..o + |b|][k] == data[o + k];
    }
    assert d[o..o + |b|] == b;
  }

  lemma {:induction false} HoldsPacked(data: Bytes, off: nat, packed: Bytes)
    ensures packed != [] ==> At(Patched(data, off, packed), off, packed)
  {
    hide Patched;
    var d := Patched(data, off, packed);
    PatchedByte(data, off, packed, 0);
    forall k | 0 <= k < |packed| && off + k < |d|
      ensures d[off + k] == packed[k]
    {
      PatchedByte(data, off, packed, off + k);
    }
    assert packed != [] ==> d[off..off + |packed|] == packed;
  }

  lemma {:induction false} KeptStep(rs: seq<Record>, i: nat, packed: Bytes, targets: seq<nat>)
    requires targets != [] && (forall k :: 0 <= k < |targets| ==> targets[k] < |rs|)
    ensures Kept(rs, i, packed, targets)[1..] == Kept(rs, i, packed, targets[1..])
  {
  }

  lemma {:induction false} KeptFits(rs: seq<Record>, i: nat, packed: Bytes, targets: seq<nat>)
    requires (forall k :: 0 <= k < |targets| ==> targets[k] < |rs|) && i < |rs| && |packed| == rs[i].dataSize
    requires forall j :: 0 <= j < |rs| ==> |rs[j].data| == rs[j].dataSize
    ensures Fits(rs, Kept(rs, i, packed, targets))
  {
  }

  /** Writing the other payloads again changes nothing: the sequence is one patch of tensor i. */
  lemma {:induction false} KeptBytes(x: Bytes, data: Bytes, rs: seq<Record>, base: nat, i: nat, packed: Bytes,
                                     targets: seq<nat>)
    requires (forall k :: 0 <= k < |targets| ==> targets[k] < |rs|) && i < |rs| && |packed| == rs[i].dataSize > 0
    requires forall j :: 0 <= j < |rs| ==> |rs[j].data| == rs[j].dataSize && At(data, Offset(rs, base, j), rs[j].data)
    requires x == data || x == Patched(data, Offset(rs, base, i), packed)
    ensures Fits(rs, Kept(rs, i, packed, targets))
    ensures PatchAll(x, rs, base, Kept(rs, i, packed, targets))
         == if i in targets then Patched(data, Offset(rs, base, i), packed) else x
    decreases |targets|
  {
    hide Offset, Patched, PatchAll, At;
    var d, ps := Patched(data, Offset(rs, base, i), packed), Kept(rs, i, packed, targets);
    KeptFits(rs, i, packed, targets);
    PatchAllStep(x, rs, base, ps);
    if targets != [] {
      var j := targets[0];
      KeptStep(rs, i, packed, targets);
      if j == i {
        HoldsPacked(data, Offset(rs, base, i), packed);
        Overwrite(d, Offset(rs, base, i), packed);
        KeptBytes(d, data, rs, base, i, packed, targets[1..]);
      } else {
        OthersStay(data, rs, base, i, packed, j);
        Overwrite(x, Offset(rs, base, j), rs[j].data);
        KeptBytes(x, data, rs, base, i, packed, targets[1..]);
      }
    }
  }

  lemma {:induction false} KeptRecords(y: seq<Record>, rs: seq<Record>, i: nat, packed: Bytes, targets: seq<nat>)
    requires (forall k :: 0 <= k < |targets| ==> targets[k] < |rs|) && i < |rs| && |packed| == rs[i].dataSize
    requires forall j :: 0 <= j < |rs| ==> |rs[j].data| == rs[j].dataSize
    requires y == rs || y == WithPayload(rs, i, packed)
    ensures Fits(y, Kept(rs, i, packed, targets))
    ensures ReplaceAll(y, Kept(rs, i, packed, targets)) == if i in targets then WithPayload(rs, i, packed) else y
    decreases |targets|
  {
    var ps := Kept(rs, i, packed, targets);
    KeptFits(rs, i, packed, targets);
    assert Fits(y, ps);
    if targets != [] {
      var j := targets[0];
      KeptStep(rs, i, packed, targets);
      var z := WithPayload(y, j, ps[0].packed);
      assert z == (if j == i then WithPayload(rs, i, packed) else y);
      KeptRecords(z, rs, i, packed, targets[1..]);
      hide ReplaceAll;
      ReplaceAllStep(y, ps);
    }
  }

  lemma ReplaceAllStep(rs: seq<Record>, ps: seq<Patch>)
    requires Fits(rs, ps) && ps != []
    ensures ReplaceAll(rs, ps) == ReplaceAll(WithPayload(rs, ps[0].index, ps[0].packed), ps[1..])
  {
  }

  /** Patches that a sequence with a non-empty target in the header or the index cannot take. */
  lemma {:induction false} UnsafePatches(data: Bytes, p: Parsed, targets: seq<nat>, i: nat) returns (ps: seq<Patch>)
    requires Parse(data) == Ok(p) && (forall k :: 0 <= k < |targets| ==> targets[k] < |p.body.records|)
    requires i in targets && p.body.records[i].dataSize > 0
    requires !ExtentClear(p, Offset(p.body.records, p.header.dataOffset, i))
    ensures Targets(ps, targets) && Fits(p.body.records, ps) && !RereadsAll(data, ps)
  {
    hide Parse, Offset, Patched, PatchAll, ReplaceAll, WithPayload, ExtentClear;
    var rs, base := p.body.records, p.header.dataOffset;
    var packed := NotClear(data, p, i);
    forall j | 0 <= j < |rs|
      ensures |rs[j].data| == rs[j].dataSize && At(data, Offset(rs, base, j), rs[j].data)
    {
      PayloadAt(data, p, j);
    }
    ps := Kept(rs, i, packed, targets);
    KeptBytes(data, data, rs, base, i, packed, targets);
    KeptRecords(rs, rs, i, packed, targets);
    assert RereadsAll(data, ps) <==> Rereads(data, i, packed);
  }

  /** Exactly when a sequence of tensors can be patched with all payloads of their sizes: when the extent of
      each non-empty one starts after the header and the index. */
  lemma {:induction false} PatchesSafeExactly(data: Bytes, targets: seq<nat>)
    requires Parse(data).Ok? && forall k :: 0 <= k < |targets| ==> targets[k] < |Parse(data).value.body.records|
    ensures var p := Parse(data).value;
      (forall ps: seq<Patch> :: Targets(ps, targets) && Fits(p.body.records, ps) ==> RereadsAll(data, ps))
      <==> forall k :: 0 <= k < |targets| ==>
        p.body.records[targets[k]].dataSize == 0
        || ExtentClear(p, Offset(p.body.records, p.header.dataOffset, targets[k]))
  {
    hide Parse, Offset, RereadsAll, ExtentClear;
    var p := Parse(data).value;
    if k :| 0 <= k < |targets| && p.body.records[targets[k]].dataSize > 0
            && !ExtentClear(p, Offset(p.body.records, p.header.dataOffset, targets[k])) {
      var ps := UnsafePatches(data, p, targets, targets[k]);
    } else {
      forall ps: seq<Patch> | Targets(ps, targets) && Fits(p.body.records, ps)
        ensures RereadsAll(data, ps)
      {
        PatchesFrame(data, ps);
      }
    }
  }

  // ---- whole files ----

  /** The first non-empty tensor starts the payload area. */
  lemma {:induction false} FirstAtBase(rs: seq<Record>, base: nat, i: nat)
    requires i <= |rs| && forall j :: 0 <= j < i ==> rs[j].dataSize == 0
    ensures Offset(rs, base, i) == base
  {
    if i > 0 {
      FirstAtBase(rs, base, i - 1);
    }
  }

  lemma {:induction false} FirstNonEmpty(rs: seq<Record>, base: nat, k: nat) returns (i: nat)
    requires k < |rs| && rs[k].dataSize > 0
    ensures i < |rs| && rs[i].dataSize > 0 && Offset(rs, base, i) == base
  {
    i := 0;
    while rs[i].dataSize == 0
      invariant i <= k && forall j :: 0 <= j < i ==> rs[j].dataSize == 0
      decreases k - i
    {
      i := i + 1;
    }
    FirstAtBase(rs, base, i);
  }

  /** Exactly when every tensor of a file with something to patch can be patched: when the header and
      the index end before the payload area. */
  lemma {:induction false} FilePatchableExactly(data: Bytes, k: nat)
    requires Parse(data).Ok? && k < |Parse(data).value.body.records| && Parse(data).value.body.records[k].dataSize > 0
    ensures var p := Parse(data).value;
      (forall i: nat, packed: Bytes :: i < |p.body.records| && |packed| == p.body.records[i].dataSize ==>
        Rereads(data, i, packed))
      <==> IndexBeforePayloads(p)
  {
    var p := Parse(data).value;
    hide Parse, Offset, Rereads, Patched, WithPayload;
    if IndexBeforePayloads(p) {
      forall i: nat, packed: Bytes | i < |p.body.records| && |packed| == p.body.records[i].dataSize
        ensures Rereads(data, i, packed)
      {
        PatchInArea(data, p, i, packed);
      }
    } else {
      var i := FirstNonEmpty(p.body.records, p.header.dataOffset, k);
      var packed := NotClear(data, p, i);
    }
  }

  /** An index record with an empty name and shape and the given payload size. */
  function BareRecord(size: nat): (b: Bytes)
    requires size < Limit(8)
    ensures |b| == 16
  {
    Limits();
    Pack(0, 2) + ([] + ([0] + ([0] + ([] + (Pack(0, 4) + Pack(size, 8))))))
  }

  /** A file with one such record whose payload area starts at its own index record. */
  function Overlapping(size: nat): (data: Bytes)
    requires size < Limit(8)
    ensures |data| == 54
  {
    Limits();
    HeaderBytes(Header(0, 0, 1, 32, 38)) + ([0x7B, 0x7D] + (Pack(1, 4) + BareRecord(size)))
  }

  lemma {:induction false} BareIsWritten(size: nat, payload: Bytes)
    requires size < Limit(8) && |payload| == size
    ensures RecordBytes(Record([], 0, [], 0, size, payload)) == Ok(BareRecord(size)) && ValidUtf8([])
  {
    Limits();
    hide Limit, Pack;
  }

  lemma BracesAreObject()
    ensures IsOneObject([0x7B, 0x7D])
  {
    assert ObjectBytes(Nothing) == [0x7B, 0x7D];
    JsonObjectIsOneObject(Nothing);
  }

  lemma {:induction false} OverlappingParts(size: nat, payload: Bytes)
    requires size < Limit(8) && |payload| == size
    requires At(Overlapping(size), 38, payload)
    ensures var data, h := Overlapping(size), Header(0, 0, 1, 32, 38);
      && ReadHeader(data) == Ok(h) && ObjectEnd(Slice(data, 32, 38)) == Some(2) && Field(data, 34, 4) == Some(1)
      && ReadRecords(data, 1, 38, 38) == Ok(Body([Record([], 0, [], 0, size, payload)], 54, 38 + size))
  {
    Limits();
    var data, h, m, s := Overlapping(size), Header(0, 0, 1, 32, 38), [0x7B, 0x7D], BareRecord(size);
    var c, r := Pack(1, 4), Record([], 0, [], 0, size, payload);
    assert data == HeaderBytes(h) + (m + (c + s));
    hide *;
    BareIsWritten(size, payload);
    BracesAreObject();
    WholeAt(data);
    AtConcat(data, 0, HeaderBytes(h), m + (c + s));
    AtConcat(data, 32, m, c + s);
    AtConcat(data, 34, c, s);
    HeaderRoundTrip(data, h);
    MetadataScan(data, m, 38);
    FieldAt(data, 34, 1, 4);
    RecordRoundTrip(data, 38, 38, r);
    ReadStep(data, 1, 38, 38);
    NoRecords(data, 54, 38 + size);
  }

  lemma {:induction false} PackZero(n: nat)
    ensures 0 < Limit(n) && Pack(0, n) == Zeros(n)
  {
    if n > 0 {
      PackZero(n - 1);
    }
  }

  /** Without the guard the frame fails: this file is accepted by both readers, and writing 16
      zero bytes to its only tensor makes it unreadable. */
  lemma {:induction false} OverlapBreaksPatch()
    ensures 16 < Limit(8)
    ensures var data := Overlapping(16);
      && Parse(data).Ok? && ReadIndex(data).Ok? && !IndexBeforePayloads(Parse(data).value)
      && |Parse(data).value.body.records| == 1 && Parse(data).value.body.records[0].dataSize == 16
      && Parse(Patched(data, 38, Zeros(16))) == Fail(SizeMismatch)
  {
    hide *;
    Limits();
    OverlapTail();
    OverlappingParts(16, BareRecord(16));
    AcceptsOverlap(Overlapping(16), BareRecord(16));
    ZeroedOverlap();
    OverlapTail();
    OverlappingParts(0, []);
    RejectsShort(Overlapping(0), Record([], 0, [], 0, 0, []));
  }

  lemma {:induction false} OverlapTail()
    ensures 16 < Limit(8) && At(Overlapping(16), 38, BareRecord(16)) && At(Overlapping(0), 38, [])
  {
    Limits();
    hide HeaderBytes, Pack, BareRecord, Limit;
  }

  lemma {:induction false} AcceptsOverlap(data: Bytes, payload: Bytes)
    requires |data| == 54 && |payload| == 16
    requires ReadHeader(data) == Ok(Header(0, 0, 1, 32, 38)) && ObjectEnd(Slice(data, 32, 38)) == Some(2)
      && Field(data, 34, 4) == Some(1)
    requires ReadRecords(data, 1, 38, 38) == Ok(Body([Record([], 0, [], 0, 16, payload)], 54, 54))
    ensures Parse(data).Ok? && ReadIndex(data).Ok? && !IndexBeforePayloads(Parse(data).value)
    ensures |Parse(data).value.body.records| == 1 && Parse(data).value.body.records[0].dataSize == 16
  {
    hide ReadHeader, ObjectEnd, ReadRecords, ReadEntries, Slice, Locates;
    ParseFrom(data, Parsed(Header(0, 0, 1, 32, 38), 34, Body([Record([], 0, [], 0, 16, payload)], 54, 54)));
    EntriesMatch(data, 1, 38, 38);
  }

  lemma {:induction false} RejectsShort(data: Bytes, r: Record)
    requires |data| == 54
    requires ReadHeader(data) == Ok(Header(0, 0, 1, 32, 38)) && ObjectEnd(Slice(data, 32, 38)) == Some(2)
      && Field(data, 34, 4) == Some(1)
    requires ReadRecords(data, 1, 38, 38) == Ok(Body([r], 54, 38))
    ensures Parse(data) == Fail(SizeMismatch)
  {
    hide ReadHeader, ObjectEnd, ReadRecords, Slice;
  }

  lemma PatchedTail(head: Bytes, b: Bytes, packed: Bytes)
    requires 0 < |b| == |packed|
    ensures Patched(head + b, |head|, packed) == head + packed
  {
  }

  lemma {:induction false} OverlapSplit(size: nat) returns (head: Bytes)
    requires size < Limit(8)
    ensures |head| == 38 && Overlapping(size) == head + BareRecord(size)
    ensures 32 < Limit(8) && head == HeaderBytes(Header(0, 0, 1, 32, 38)) + ([0x7B, 0x7D] + Pack(1, 4))
  {
    Limits();
    head := HeaderBytes(Header(0, 0, 1, 32, 38)) + ([0x7B, 0x7D] + Pack(1, 4));
    hide HeaderBytes, Pack, Limit, BareRecord;
    Regroup(HeaderBytes(Header(0, 0, 1, 32, 38)), [0x7B, 0x7D], Pack(1, 4), BareRecord(size));
  }

  lemma Regroup(a: Bytes, b: Bytes, c: Bytes, d: Bytes)
    ensures a + (b + (c + d)) == (a + (b + c)) + d
  {
  }

  lemma {:induction false} ZeroedOverlap()
    ensures 16 < Limit(8) && Patched(Overlapping(16), 38, Zeros(16)) == Overlapping(0)
  {
    Limits();
    hide *;
    BareZero();
    var head := OverlapSplit(16);
    var same := OverlapSplit(0);
    PatchedTail(head, BareRecord(16), Zeros(16));
  }

  lemma {:induction false} BareZero()
    ensures 0 < Limit(8) && BareRecord(0) == Zeros(16)
  {
    Limits();
    PackZero(2);
    PackZero(4);
    PackZero(8);
    hide Pack, Limit;
  }
}
