/** The navigator over a file the sequential writer produced: it opens with
    the writer's fields, record count and charmap, and moving to record `n`
    loads the `n`-th record written. */
module NavigatorRoundTrip {
  import opened Bytes
  import opened Wrappers
  import opened Strconv
  import opened Dates
  import opened CodePages
  import opened FieldDesc
  import opened FieldList
  import opened FileHeader
  import opened DbfReader
  import opened DbfWriter
  import opened RoundTrip
  import opened Navigator

  /** `k * size`, built up one record at a time. */
  function Stride(k: nat, size: nat): (r: nat)
  {
    if k == 0 then 0 else Stride(k - 1, size) + size
  }

  lemma {:induction false} StrideIsProduct(k: nat, size: nat)
    ensures Stride(k, size) == k * size
  {
    if k > 0 {
      StrideIsProduct(k - 1, size);
      MulSucc(k - 1, size);
    }
  }

  /** A run of record buffers of `size` bytes, each of which `read` turns
      into the next record: `Holds` with the record reading left abstract. */
  predicate HoldsBy(read: seq<byte> -> Result<seq<Value>>, size: nat, data: seq<byte>, records: seq<seq<Value>>)
    decreases |records|
  {
    if |records| == 0 then data == []
    else |data| >= size && read(data[..size]) == Ok(records[0]) && HoldsBy(read, size, data[size..], records[1..])
  }

  lemma {:induction false} HoldsByRecords(items: seq<Field>, size: nat, data: seq<byte>, records: seq<seq<Value>>,
                                          cm: Option<Charmap>, fl: Floats)
    requires Holds(items, size, data, records, cm, fl)
    ensures HoldsBy(b => RecordValues(items, b, cm, fl), size, data, records)
    decreases |records|
  {
    if |records| > 0 {
      HoldsByRecords(items, size, data[size..], records[1..], cm, fl);
    }
  }

  /** Record `k` (from 0) of a run of record buffers is the slice of `size`
      bytes at `k * size`. */
  lemma {:induction false} HoldsAt(read: seq<byte> -> Result<seq<Value>>, size: nat, data: seq<byte>,
                                   records: seq<seq<Value>>, k: nat)
    requires HoldsBy(read, size, data, records) && k < |records|
    ensures Stride(k, size) + size <= |data|
    ensures read(data[Stride(k, size)..Stride(k, size) + size]) == Ok(records[k])
    decreases k
  {
    if k == 0 {
      assert data[0..0 + size] == data[..size];
    } else {
      var prev := Stride(k - 1, size);
      HoldsAt(read, size, data[size..], records[1..], k - 1);
      SliceOfTail(data, size, prev);
    }
  }

  lemma SliceOfTail<T>(data: seq<T>, size: nat, a: nat)
    requires a + size + size <= |data|
    ensures data[size..][a..a + size] == data[a + size..a + size + size]
  {
  }

  /** With a well-formed code-page table, a navigator without charmaps that
      opens a file `NewReader` accepts ends up with the reader's header,
      fields (after any it had) and decoder. */
  lemma OpenFileAsReader(t: Table, db: XBase, input: seq<byte>)
    requires WellFormed(t) && NewReader(t, input).Ok? && db.encoder.None? && db.decoder.None?
    ensures var rd := NewReader(t, input).value;
      var r := OpenFile(t, db, Ok(input));
      && r.Ok?
      && r.value.header == rd.header
      && r.value.fields == db.fields + rd.fields
      && r.value.decoder == rd.decoder
      && r.value.file == Some(input)
      && |r.value.buf| == rd.header.recSize
      && r.value.recNo == db.recNo
  {
    var h := ReadHeader(input).value.0;
    CodeByPageByCode(t, h.cp);
    assert CharmapByPage(t, 0).None?;
  }

  /** Moving to record `n` of a file whose records start at the header's data
      offset loads that record's bytes. */
  lemma GoToLoads(db: XBase, prefix: seq<byte>, data: seq<byte>, tail: seq<byte>, n: int)
    requires db.file == Some(prefix + (data + tail)) && db.header.dataOffset == |prefix|
    requires |db.buf| == db.header.recSize && 1 <= n <= RecCount(db)
    requires Stride(n - 1, db.header.recSize) + db.header.recSize <= |data|
    ensures GoTo(db, n).err.None? && GoTo(db, n).db.recNo == n
    ensures GoTo(db, n).db == db.(recNo := n, buf := GoTo(db, n).db.buf)
    ensures var at := Stride(n - 1, db.header.recSize);
      GoTo(db, n).db.buf == data[at..at + db.header.recSize]
  {
    var size := db.header.recSize;
    var at := Stride(n - 1, size);
    StrideIsProduct(n - 1, size);
    assert RecordOffset(db.header, n) == |prefix| + at;
    assert (prefix + (data + tail))[|prefix| + at..|prefix| + at + size] == data[at..at + size];
  }

  /** Create, write, flush, then navigate: a navigator with no fields or
      charmaps opens the written bytes with the writer's fields and the
      record count, and moving to record `n` makes every field read back the
      value written there. */
  lemma NavigateWritten(t: Table, fs: Fields, codePage: int, now: CivilDate, records: seq<seq<Value>>, fl: Floats,
                        db: XBase, n: int)
    requires WellFormed(t) && NewWriter(t, Sink([], 0), fs, codePage, now).Ok?
    requires |fs.items| * FIELD_SIZE + HEADER_SIZE + 1 < 0x1_0000
    requires 1 + SumLen(fs.items) < 0x1_0000 && |records| < 0x1_0000_0000
    requires forall k | 0 <= k < |records| ::
      RecordStorable(fs.items, records[k], NewWriter(t, Sink([], 0), fs, codePage, now).value.encoder, fl)
    requires db.fields == [] && db.encoder.None? && db.decoder.None?
    requires 1 <= n <= |records|
    ensures var r := OpenFile(t, db, Ok(WrittenBytes(t, fs, codePage, now, records, fl)));
      && r.Ok?
      && r.value.fields == Layout(fs.items, 1)
      && RecCount(r.value) == |records|
      && var m := GoTo(r.value, n);
      && m.err.None? && m.db.recNo == n
      && RecordValues(m.db.fields, m.db.buf, m.db.decoder, fl) == Ok(records[n - 1])
  {
    var prefix, data := FlushedFile(t, fs, codePage, now, records, fl);
    NavigateFile(t, db, WrittenBytes(t, fs, codePage, now, records, fl), prefix, data, records, fl, n);
  }

  /** A flushed file is the header, the descriptor table and its terminator,
      then the record area, then the end-of-file marker; the header's data
      offset points at the record area. */
  lemma FlushedFile(t: Table, fs: Fields, codePage: int, now: CivilDate, records: seq<seq<Value>>, fl: Floats)
    returns (prefix: seq<byte>, data: seq<byte>)
    requires WellFormed(t) && NewWriter(t, Sink([], 0), fs, codePage, now).Ok?
    requires |fs.items| * FIELD_SIZE + HEADER_SIZE + 1 < 0x1_0000
    requires 1 + SumLen(fs.items) < 0x1_0000 && |records| < 0x1_0000_0000
    requires forall k | 0 <= k < |records| ::
      RecordStorable(fs.items, records[k], NewWriter(t, Sink([], 0), fs, codePage, now).value.encoder, fl)
    ensures var file := WrittenBytes(t, fs, codePage, now, records, fl);
      var rd := NewReader(t, file);
      && rd.Ok?
      && file == prefix + (data + [FILE_END])
      && rd.value.header.dataOffset == |prefix|
      && rd.value.header.recCount == |records|
      && rd.value.fields == Layout(fs.items, 1)
      && Holds(rd.value.fields, rd.value.header.recSize, data, records, rd.value.decoder, fl)
  {
    data := OpenFlushed(t, fs, codePage, now, records, fl);
    var rd := NewReader(t, WrittenBytes(t, fs, codePage, now, records, fl)).value;
    prefix := HeaderBytes(rd.header) + DescriptorBytes(fs.items) + [HEADER_END];
    assert rd.header.dataOffset == |prefix| by {
      ToUint16Small(|fs.items| * FIELD_SIZE + HEADER_SIZE + 1);
    }
    ConcatAssoc(prefix, data, [FILE_END]);
  }

  /** Opening a file that `NewReader` accepts and whose records, from the
      header's data offset on, hold `records`, then moving to record `n`. */
  lemma NavigateFile(t: Table, db: XBase, file: seq<byte>, prefix: seq<byte>, data: seq<byte>,
                     records: seq<seq<Value>>, fl: Floats, n: int)
    requires WellFormed(t) && NewReader(t, file).Ok?
    requires db.fields == [] && db.encoder.None? && db.decoder.None?
    requires var rd := NewReader(t, file).value;
      && file == prefix + (data + [FILE_END]) && rd.header.dataOffset == |prefix|
      && rd.header.recCount == |records|
      && Holds(rd.fields, rd.header.recSize, data, records, rd.decoder, fl)
    requires 1 <= n <= |records|
    ensures var r := OpenFile(t, db, Ok(file));
      && r.Ok?
      && r.value.fields == NewReader(t, file).value.fields
      && RecCount(r.value) == |records|
      && var m := GoTo(r.value, n);
      && m.err.None? && m.db.recNo == n
      && RecordValues(m.db.fields, m.db.buf, m.db.decoder, fl) == Ok(records[n - 1])
  {
    OpenFileAsReader(t, db, file);
    var nav := OpenFile(t, db, Ok(file)).value;
    var rd := NewReader(t, file).value;
    assert nav.fields == rd.fields;
    var fields, cm := rd.fields, rd.decoder;
    HoldsByRecords(fields, rd.header.recSize, data, records, cm, fl);
    NavigateAt(nav, prefix, data, b => RecordValues(fields, b, cm, fl), records, n);
  }

  /** Moving to record `n` of an open file whose record buffers, from the
      header's data offset on, `read` as `records`: the navigator changes
      only its record number and buffer, and the buffer reads as record `n`. */
  lemma NavigateAt(nav: XBase, prefix: seq<byte>, data: seq<byte>, read: seq<byte> -> Result<seq<Value>>,
                   records: seq<seq<Value>>, n: int)
    requires nav.file == Some(prefix + (data + [FILE_END])) && nav.header.dataOffset == |prefix|
    requires |nav.buf| == nav.header.recSize && RecCount(nav) == |records|
    requires HoldsBy(read, nav.header.recSize, data, records)
    requires 1 <= n <= |records|
    ensures var m := GoTo(nav, n);
      && m.err.None? && m.db.recNo == n
      && m.db == nav.(recNo := n, buf := m.db.buf)
      && read(m.db.buf) == Ok(records[n - 1])
  {
    HoldsAt(read, nav.header.recSize, data, records, n - 1);
    GoToLoads(nav, prefix, data, [FILE_END], n);
  }

}
