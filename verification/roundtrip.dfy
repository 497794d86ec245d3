/** What the writer produces, the reader gives back: field by field, record
    by record, and for a whole file written to an empty stream. */
module RoundTrip {
  import opened Bytes
  import opened Wrappers
  import opened StrUtil
  import opened Strconv
  import opened Dates
  import opened CodePages
  import opened FieldDesc
  import opened FieldList
  import opened FileHeader
  import opened DbfReader
  import opened DbfWriter

  /** A value the writer stores in a field so that the reader returns it
      unchanged: a string whose (transcoded) text fits without trailing
      spaces and decodes back, a boolean in a non-empty slot, a date with a
      four-digit year in an eight-byte slot, an integer whose digits fit,
      and a float whose formatted text parses back to it. */
  predicate Storable(f: Field, v: Value, cm: Option<Charmap>, fl: Floats)
  {
    if f.typ == CHAR_C then v.Chr? && Stores(cm, v.s, f.len)
    else if f.typ == CHAR_L then v.Log? && f.len >= 1
    else if f.typ == CHAR_D then v.Dat? && f.len == 8 && 0 <= v.d.year <= 9999
    else if f.typ == CHAR_N then
      if f.dec == 0 then v.Int? && |FormatInt(v.i)| <= f.len
      else
        && v.Flt?
        && |fl.format(v.x, f.dec)| <= f.len
        && fl.parse(NumericText(PadLeft(fl.format(v.x, f.dec), f.len))) == Ok(v.x)
    else false
  }

  /** A slot holding a text as wide as the slot is that text. */
  lemma WrittenWhole(f: Field, buf: seq<byte>, s: seq<byte>)
    requires Written(f, buf, s) && |s| == f.len
    ensures FieldBuf(f, buf) == Ok(s)
  {
    var slot := buf[f.offset..f.offset + f.len];
    assert forall i | 0 <= i < f.len :: slot[i] == buf[f.offset + i];
    assert slot == s;
  }

  /** One field: the text the writer puts in a slot reads back as the value. */
  lemma FieldRoundTrip(f: Field, buf: seq<byte>, v: Value, cm: Option<Charmap>, fl: Floats)
    requires Storable(f, v, cm, fl)
    ensures ValueText(f, v, cm, fl).Ok?
    ensures Written(f, buf, ValueText(f, v, cm, fl).value) ==> FieldValue(f, buf, cm, fl) == Ok(v)
  {
    if f.typ == CHAR_C {
      CharacterRoundTrip(f, buf, v.s, cm, fl);
    } else if f.typ == CHAR_L {
      LogicalRoundTrip(f, buf, v.b, cm, fl);
    } else if f.typ == CHAR_D {
      DateFieldRoundTrip(f, buf, v.d, cm, fl);
    } else if f.dec == 0 {
      IntegerRoundTrip(f, buf, v.i, cm, fl);
    } else {
      FloatRoundTrip(f, buf, v.x, cm, fl);
    }
  }

  lemma CharacterRoundTrip(f: Field, buf: seq<byte>, s: seq<byte>, cm: Option<Charmap>, fl: Floats)
    requires f.typ == CHAR_C && Stores(cm, s, f.len)
    ensures ValueText(f, Chr(s), cm, fl).Ok?
    ensures Written(f, buf, ValueText(f, Chr(s), cm, fl).value) ==> FieldValue(f, buf, cm, fl) == Ok(Chr(s))
  {
    var e := EncodeText(cm, s).value;
    var text := ValueText(f, Chr(s), cm, fl).value;
    assert text == PadRight(e, f.len);
    if Written(f, buf, text) {
      WrittenWhole(f, buf, text);
      PadRightTrimRight(e, f.len);
      assert StringFieldValue(f, buf, cm) == Ok(s);
    }
  }

  lemma LogicalRoundTrip(f: Field, buf: seq<byte>, b: bool, cm: Option<Charmap>, fl: Floats)
    requires f.typ == CHAR_L && f.len >= 1
    ensures ValueText(f, Log(b), cm, fl).Ok?
    ensures Written(f, buf, ValueText(f, Log(b), cm, fl).value) ==> FieldValue(f, buf, cm, fl) == Ok(Log(b))
  {
    var text := ValueText(f, Log(b), cm, fl).value;
    if Written(f, buf, text) {
      assert buf[f.offset + 0] == text[0];
      assert BoolFieldValue(f, buf) == Ok(b);
    }
  }

  lemma DateFieldRoundTrip(f: Field, buf: seq<byte>, d: CivilDate, cm: Option<Charmap>, fl: Floats)
    requires f.typ == CHAR_D && f.len == 8 && 0 <= d.year <= 9999
    ensures ValueText(f, Dat(d), cm, fl).Ok?
    ensures Written(f, buf, ValueText(f, Dat(d), cm, fl).value) ==> FieldValue(f, buf, cm, fl) == Ok(Dat(d))
  {
    var s := Format(d);
    if Written(f, buf, s) {
      WrittenWhole(f, buf, s);
      assert s[0] != SPACE;
      ParseFormat(d);
      assert DateFieldValue(f, buf) == Ok(d);
    }
  }

  lemma IntegerRoundTrip(f: Field, buf: seq<byte>, i: int64, cm: Option<Charmap>, fl: Floats)
    requires f.typ == CHAR_N && f.dec == 0 && |FormatInt(i)| <= f.len
    ensures ValueText(f, Int(i), cm, fl).Ok?
    ensures Written(f, buf, ValueText(f, Int(i), cm, fl).value) ==> FieldValue(f, buf, cm, fl) == Ok(Int(i))
  {
    assert ValueText(f, Int(i), cm, fl) == IntText(f, i);
    var text := IntText(f, i).value;
    if Written(f, buf, text) {
      WrittenWhole(f, buf, text);
      IntSlotReads(f, buf, text, i, cm, fl);
    }
  }

  lemma FloatRoundTrip(f: Field, buf: seq<byte>, x: Float, cm: Option<Charmap>, fl: Floats)
    requires f.typ == CHAR_N && f.dec != 0 && Storable(f, Flt(x), cm, fl)
    ensures ValueText(f, Flt(x), cm, fl).Ok?
    ensures Written(f, buf, ValueText(f, Flt(x), cm, fl).value) ==> FieldValue(f, buf, cm, fl) == Ok(Flt(x))
  {
    var text := ValueText(f, Flt(x), cm, fl).value;
    if Written(f, buf, text) {
      WrittenWhole(f, buf, text);
    }
  }

  /** Every field of a record can be stored. */
  predicate RecordStorable(items: seq<Field>, vals: seq<Value>, cm: Option<Charmap>, fl: Floats)
  {
    |vals| == |items| && forall j | 0 <= j < |items| :: Storable(items[j], vals[j], cm, fl)
  }

  /** One record: filling disjoint slots that fit the buffer with storable
      values succeeds, and reading the buffer gives the values back. */
  lemma RecordRoundTrip(items: seq<Field>, buf: seq<byte>, vals: seq<Value>, cm: Option<Charmap>, fl: Floats)
    requires RecordStorable(items, vals, cm, fl) && Disjoint(items)
    requires forall j | 0 <= j < |items| :: SlotFits(items[j], buf)
    ensures FillFields(items, buf, vals, cm, fl, 0).err.None?
    ensures RecordValues(items, FillFields(items, buf, vals, cm, fl, 0).buf, cm, fl) == Ok(vals)
  {
    forall j | 0 <= j < |items|
      ensures ValueText(items[j], vals[j], cm, fl).Ok?
    {
      FieldRoundTrip(items[j], buf, vals[j], cm, fl);
    }
    FillFieldsOk(items, buf, vals, cm, fl, 0);
    var out := FillFields(items, buf, vals, cm, fl, 0).buf;
    forall j | 0 <= j < |items|
      ensures FieldValue(items[j], out, cm, fl) == Ok(vals[j])
    {
      FillWritesAt(items, buf, vals, cm, fl, 0, j, ValueText(items[j], vals[j], cm, fl).value);
      FieldRoundTrip(items[j], out, vals[j], cm, fl);
    }
    var r := RecordValues(items, out, cm, fl);
    assert r.value == vals;
  }

  // ------------------------------------------------------------- records

  /** `data` is a run of `size`-byte records, one for each of `records`. */
  predicate Holds(items: seq<Field>, size: nat, data: seq<byte>, records: seq<seq<Value>>, cm: Option<Charmap>, fl: Floats)
    decreases |records|
  {
    if |records| == 0 then data == []
    else
      && |data| >= size
      && RecordValues(items, data[..size], cm, fl) == Ok(records[0])
      && Holds(items, size, data[size..], records[1..], cm, fl)
  }

  /** One successful `Write`: the filled buffer is queued and reads back
      as the record. */
  lemma WriteStep(w: Writer, record: seq<Value>, fl: Floats)
    requires Disjoint(w.items)
    requires forall j | 0 <= j < |w.items| :: SlotFits(w.items[j], w.buf)
    requires RecordStorable(w.items, record, w.encoder, fl)
    ensures DbfWriter.Write(w, record, fl).1.None?
    ensures DbfWriter.Write(w, record, fl).0
      == w.(buf := DbfWriter.Write(w, record, fl).0.buf, pending := w.pending + DbfWriter.Write(w, record, fl).0.buf,
            recCount := Inc32(w.recCount))
    ensures |DbfWriter.Write(w, record, fl).0.buf| == |w.buf|
    ensures RecordValues(w.items, DbfWriter.Write(w, record, fl).0.buf, w.encoder, fl) == Ok(record)
  {
    RecordRoundTrip(w.items, w.buf, record, w.encoder, fl);
  }

  /** Every record of a run can be stored, taken one record at a time. */
  predicate AllStorable(items: seq<Field>, records: seq<seq<Value>>, cm: Option<Charmap>, fl: Floats)
    decreases |records|
  {
    |records| > 0 ==> RecordStorable(items, records[0], cm, fl) && AllStorable(items, records[1..], cm, fl)
  }

  lemma {:induction false} AllStorableEach(items: seq<Field>, records: seq<seq<Value>>, cm: Option<Charmap>, fl: Floats)
    requires forall k | 0 <= k < |records| :: RecordStorable(items, records[k], cm, fl)
    ensures AllStorable(items, records, cm, fl)
    decreases |records|
  {
    if |records| > 0 {
      assert RecordStorable(items, records[0], cm, fl);
      assert forall k | 0 <= k < |records| - 1 :: records[1..][k] == records[k + 1];
      AllStorableEach(items, records[1..], cm, fl);
    }
  }

  /** A record buffer followed by a run of records is a longer run. */
  lemma HoldsCons(items: seq<Field>, b: seq<byte>, tail: seq<byte>, record: seq<Value>, records: seq<seq<Value>>,
                  cm: Option<Charmap>, fl: Floats)
    requires RecordValues(items, b, cm, fl) == Ok(record)
    requires Holds(items, |b|, tail, records, cm, fl)
    ensures Holds(items, |b|, b + tail, [record] + records, cm, fl)
  {
    assert (b + tail)[..|b|] == b;
    assert (b + tail)[|b|..] == tail;
    assert ([record] + records)[1..] == records;
  }

  /** Queued bytes that extend `prefix + b` hold `record` and then whatever
      the extension holds. */
  lemma HoldsExtend(items: seq<Field>, prefix: seq<byte>, b: seq<byte>, all: seq<byte>,
                    records: seq<seq<Value>>, cm: Option<Charmap>, fl: Floats)
    requires |records| > 0
    requires RecordValues(items, b, cm, fl) == Ok(records[0])
    requires |all| >= |prefix + b| && all[..|prefix + b|] == prefix + b
    requires Holds(items, |b|, all[|prefix + b|..], records[1..], cm, fl)
    ensures |all| >= |prefix| && all[..|prefix|] == prefix
    ensures Holds(items, |b|, all[|prefix|..], records, cm, fl)
  {
    var tail := all[|prefix + b|..];
    assert all == prefix + b + tail;
    assert all[|prefix|..] == b + tail;
    HoldsCons(items, b, tail, records[0], records[1..], cm, fl);
    assert [records[0]] + records[1..] == records;
  }

  /** The writer, once created, appends one record buffer per written record. */
  lemma {:induction false} WriteAllHolds(w: Writer, records: seq<seq<Value>>, fl: Floats)
    requires Disjoint(w.items)
    requires forall j | 0 <= j < |w.items| :: SlotFits(w.items[j], w.buf)
    requires AllStorable(w.items, records, w.encoder, fl)
    ensures WriteAll(w, records, fl).1.None? && |WriteAll(w, records, fl).0.pending| >= |w.pending|
    ensures Holds(w.items, |w.buf|, WriteAll(w, records, fl).0.pending[|w.pending|..], records, w.encoder, fl)
    decreases |records|
  {
    if |records| == 0 {
      assert w.pending[|w.pending|..] == [];
    } else {
      WriteStep(w, records[0], fl);
      var next := DbfWriter.Write(w, records[0], fl).0;
      WriteAllHolds(next, records[1..], fl);
      WriteAllAppends(next, records[1..], fl);
      WriteAllStep(w, records, fl);
      var all := WriteAll(next, records[1..], fl).0.pending;
      HoldsExtend(w.items, w.pending, next.buf, all, records, w.encoder, fl);
    }
  }

  /** The records read back as successful results. */
  function Oks(records: seq<seq<Value>>): (r: seq<Result<seq<Value>>>)
    ensures |r| == |records| && forall k | 0 <= k < |records| :: r[k] == Ok(records[k])
  {
    seq(|records|, k requires 0 <= k < |records| => Ok(records[k]))
  }

  /** `n` successive calls of `Read`. */
  function ReadN(rd: Reader, fl: Floats, n: nat): (r: (Reader, seq<Result<seq<Value>>>))
    ensures |r.1| == n
    decreases n
  {
    if n == 0 then (rd, [])
    else
      var s := DbfReader.Read(rd, fl);
      var (last, more) := ReadN(s.rd, fl, n - 1);
      (last, [s.record] + more)
  }

  /** One `Read` over a buffer holding a record returns it and moves past it. */
  lemma ReadOne(rd: Reader, fl: Floats, b: seq<byte>, rest: seq<byte>, record: seq<Value>)
    requires rd.input == b + rest && |b| == rd.header.recSize
    requires RecordValues(rd.fields, b, rd.decoder, fl) == Ok(record)
    ensures DbfReader.Read(rd, fl).record == Ok(record)
    ensures DbfReader.Read(rd, fl).rd.input == rest
    ensures DbfReader.Read(rd, fl).rd.header == rd.header
    ensures DbfReader.Read(rd, fl).rd.fields == rd.fields
    ensures DbfReader.Read(rd, fl).rd.decoder == rd.decoder
  {
    assert rd.input[..|b|] == b;
    assert rd.input[|b|..] == rest;
  }

  /** A reader over a run of written records returns them in order and
      stops right after them. */
  lemma {:induction false} ReadNHolds(rd: Reader, fl: Floats, data: seq<byte>, rest: seq<byte>, records: seq<seq<Value>>)
    requires rd.input == data + rest
    requires Holds(rd.fields, rd.header.recSize, data, records, rd.decoder, fl)
    ensures ReadN(rd, fl, |records|).1 == Oks(records)
    ensures ReadN(rd, fl, |records|).0.input == rest
    ensures ReadN(rd, fl, |records|).0.header == rd.header
    decreases |records|
  {
    if |records| > 0 {
      var size := rd.header.recSize;
      var b, tail := data[..size], data[size..];
      assert rd.input == b + (tail + rest) by {
        assert data == b + tail;
      }
      ReadOne(rd, fl, b, tail + rest, records[0]);
      var s := DbfReader.Read(rd, fl);
      ReadNHolds(s.rd, fl, tail, rest, records[1..]);
      ReadNCons(rd, fl, |records| - 1);
      OksCons(records);
    }
  }

  lemma ReadNCons(rd: Reader, fl: Floats, n: nat)
    ensures ReadN(rd, fl, n + 1)
      == (ReadN(DbfReader.Read(rd, fl).rd, fl, n).0, [DbfReader.Read(rd, fl).record] + ReadN(DbfReader.Read(rd, fl).rd, fl, n).1)
  {
  }

  lemma OksCons(records: seq<seq<Value>>)
    requires |records| > 0
    ensures Oks(records) == [Ok(records[0])] + Oks(records[1..])
  {
  }

  // ---------------------------------------------------------------- files

  /** A writer just created from fields that fit a record can take the
      records: its slots are disjoint, lie in the record buffer, and every
      record can be stored in them. */
  lemma NewWriterReady(t: Table, fs: Fields, codePage: int, now: CivilDate, records: seq<seq<Value>>, fl: Floats)
    requires NewWriter(t, Sink([], 0), fs, codePage, now).Ok?
    requires 1 + SumLen(fs.items) < 0x1_0000
    requires forall k | 0 <= k < |records| ::
      RecordStorable(fs.items, records[k], NewWriter(t, Sink([], 0), fs, codePage, now).value.encoder, fl)
    ensures var w := NewWriter(t, Sink([], 0), fs, codePage, now).value;
      && Disjoint(w.items)
      && (forall j | 0 <= j < |w.items| :: SlotFits(w.items[j], w.buf))
      && AllStorable(w.items, records, w.encoder, fl)
  {
    var w := NewWriter(t, Sink([], 0), fs, codePage, now).value;
    LaidOutReady(fs.items, w.items, w.buf, records, w.encoder, fl);
  }

  /** Fields laid out from offset 1 in a buffer as wide as the record are
      disjoint, fit the buffer, and store what the fields they came from
      store. */
  lemma LaidOutReady(items: seq<Field>, laid: seq<Field>, buf: seq<byte>, records: seq<seq<Value>>,
                     cm: Option<Charmap>, fl: Floats)
    requires laid == Layout(items, 1) && |buf| == CalcRecSize(items)
    requires 1 + SumLen(items) < 0x1_0000
    requires forall k | 0 <= k < |records| :: RecordStorable(items, records[k], cm, fl)
    ensures Disjoint(laid)
    ensures forall j | 0 <= j < |laid| :: SlotFits(laid[j], buf)
    ensures AllStorable(laid, records, cm, fl)
  {
    RecSizeCoversLayout(items);
    LayoutDisjoint(items, 1);
    forall k | 0 <= k < |records|
      ensures RecordStorable(laid, records[k], cm, fl)
    {
      StorableRelaid(items, laid, records[k], cm, fl);
    }
    AllStorableEach(laid, records, cm, fl);
  }

  /** Whether a value can be stored does not depend on where its slot starts. */
  lemma StorableRelaid(items: seq<Field>, laid: seq<Field>, vals: seq<Value>, cm: Option<Charmap>, fl: Floats)
    requires |laid| == |items| && forall j | 0 <= j < |items| :: laid[j] == items[j].(offset := laid[j].offset)
    requires RecordStorable(items, vals, cm, fl)
    ensures RecordStorable(laid, vals, cm, fl)
  {
    forall j | 0 <= j < |laid|
      ensures Storable(laid[j], vals[j], cm, fl)
    {
      var f := items[j];
      assert laid[j].typ == f.typ && laid[j].len == f.len && laid[j].dec == f.dec;
      assert Storable(f, vals[j], cm, fl);
    }
  }

  /** Flushing a writer that started on an empty stream with `prefix`
      queued: the header carries the final count, then come the queued
      bytes after the header, then 0x1A. */
  lemma FlushedOnEmpty(w: Writer, last: Writer, descriptors: seq<byte>)
    requires w.sink.data == [] && last.sink == w.sink && last.header == w.header
    requires w.pending == HeaderBytes(w.header) + descriptors + [HEADER_END]
    requires |last.pending| >= |w.pending| && last.pending[..|w.pending|] == w.pending
    ensures Flush(last).sink.data
      == HeaderBytes(w.header.(recCount := last.recCount)) + descriptors + [HEADER_END]
         + last.pending[|w.pending|..] + [FILE_END]
  {
    var data := last.pending[|w.pending|..];
    var tail := descriptors + [HEADER_END];
    assert last.pending == w.pending + data;
    ConcatAssoc(HeaderBytes(w.header), descriptors, [HEADER_END]);
    ConcatAssoc(HeaderBytes(w.header), tail, data);
    assert last.pending[HEADER_SIZE..] == tail + data;
    var hb := HeaderBytes(w.header.(recCount := last.recCount));
    ConcatAssoc(hb, descriptors, [HEADER_END]);
    ConcatAssoc(hb, tail, data);
  }

  /** The bytes a writer created on an empty stream leaves there after
      writing `records` and flushing: the header with the record count, the
      descriptors, 0x0D, one buffer per record, and 0x1A. */
  lemma WrittenFile(t: Table, fs: Fields, codePage: int, now: CivilDate, records: seq<seq<Value>>, fl: Floats)
    returns (data: seq<byte>)
    requires NewWriter(t, Sink([], 0), fs, codePage, now).Ok?
    requires 1 + SumLen(fs.items) < 0x1_0000 && |records| < 0x1_0000_0000
    requires forall k | 0 <= k < |records| ::
      RecordStorable(fs.items, records[k], NewWriter(t, Sink([], 0), fs, codePage, now).value.encoder, fl)
    ensures var w := NewWriter(t, Sink([], 0), fs, codePage, now).value;
      && WriteAll(w, records, fl).1.None?
      && Flush(WriteAll(w, records, fl).0).sink.data
         == HeaderBytes(w.header.(recCount := |records|)) + DescriptorBytes(fs.items) + [HEADER_END] + data + [FILE_END]
      && Holds(w.items, w.header.recSize, data, records, w.encoder, fl)
  {
    var w := NewWriter(t, Sink([], 0), fs, codePage, now).value;
    NewWriterReady(t, fs, codePage, now, records, fl);
    WriteAllHolds(w, records, fl);
    WriteAllAppends(w, records, fl);
    var wn := WriteAll(w, records, fl).0;
    FlushedOnEmpty(w, wn, DescriptorBytes(fs.items));
    data := wn.pending[|w.pending|..];
  }

  /** Opening a file laid out as the writer lays it out: the header read is
      the one written, the fields come back laid out from offset 1, the
      records start right after 0x0D, and the decoder is the header page's. */
  lemma OpenWritten(t: Table, h: Header, items: seq<Field>, data: seq<byte>)
    requires WellFormed(t) && h.id == DBF_ID && FieldCount(h) == |items|
    ensures var rd := NewReader(t, HeaderBytes(h) + DescriptorBytes(items) + [HEADER_END] + data);
      && rd.Ok?
      && rd.value.header == h
      && rd.value.fields == Layout(items, 1)
      && rd.value.input == data
      && rd.value.decoder == DecoderFor(t, h)
  {
    ReadWrittenHeader(h, DescriptorBytes(items) + ([HEADER_END] + data));
    OpenAfterHeader(t, h, HeaderBytes(h), items, data);
  }

  /** The rest of OpenWritten, with the header bytes left abstract. */
  lemma OpenAfterHeader(t: Table, h: Header, hb: seq<byte>, items: seq<Field>, data: seq<byte>)
    requires WellFormed(t) && FieldCount(h) == |items|
    requires ReadHeader(hb + (DescriptorBytes(items) + ([HEADER_END] + data)))
      == Ok((h, DescriptorBytes(items) + ([HEADER_END] + data)))
    ensures var rd := NewReader(t, hb + DescriptorBytes(items) + [HEADER_END] + data);
      && rd.Ok?
      && rd.value.header == h
      && rd.value.fields == Layout(items, 1)
      && rd.value.input == data
      && rd.value.decoder == DecoderFor(t, h)
  {
    var afterFields := [HEADER_END] + data;
    var afterHeader := DescriptorBytes(items) + afterFields;
    ConcatAssoc(hb + DescriptorBytes(items), [HEADER_END], data);
    ConcatAssoc(hb, DescriptorBytes(items), afterFields);
    ReadWritten(items, afterFields, 1);
    NewReaderOf(t, hb + afterHeader, h, afterHeader, Layout(items, 1), afterFields);
    assert afterFields[1..] == data;
  }

  /** NewReader over a header, a descriptor table and at least one more byte. */
  lemma NewReaderOf(t: Table, input: seq<byte>, h: Header, rest: seq<byte>, fields: seq<Field>, after: seq<byte>)
    requires ReadHeader(input) == Ok((h, rest))
    requires ReadItems(rest, FieldCount(h), 1) == ReadOutcome(fields, after, None)
    requires |after| > 0
    ensures NewReader(t, input) == Ok(Reader(h, fields, after[1..], 0, DecoderFor(t, h), false, []))
  {
  }

  /** The decoder a reader picks up from the written header is the writer's
      encoder. */
  lemma WrittenDecoder(t: Table, fs: Fields, codePage: int, now: CivilDate, count: uint32)
    requires WellFormed(t) && NewWriter(t, Sink([], 0), fs, codePage, now).Ok?
    ensures var w := NewWriter(t, Sink([], 0), fs, codePage, now).value;
      && DecoderFor(t, w.header.(recCount := count)) == w.encoder
      && FileHeader.CodePage(t, w.header.(recCount := count)) == (if codePage > 0 then codePage else 0)
  {
    NewWriterCodePage(t, Sink([], 0), fs, codePage, now);
    PageByCodeByPage(t, codePage);
  }

  /** The bytes on an empty stream after creating a writer, writing
      `records` and flushing. */
  function WrittenBytes(t: Table, fs: Fields, codePage: int, now: CivilDate, records: seq<seq<Value>>, fl: Floats): seq<byte>
    requires NewWriter(t, Sink([], 0), fs, codePage, now).Ok?
  {
    Flush(WriteAll(NewWriter(t, Sink([], 0), fs, codePage, now).value, records, fl).0).sink.data
  }

  /** The written bytes open: the reader holds the header written with the
      final count, the fields laid out as the writer laid them out, the
      writer's charmap, and the records followed by 0x1A. */
  lemma OpenFlushed(t: Table, fs: Fields, codePage: int, now: CivilDate, records: seq<seq<Value>>, fl: Floats)
    returns (data: seq<byte>)
    requires WellFormed(t) && NewWriter(t, Sink([], 0), fs, codePage, now).Ok?
    requires |fs.items| * FIELD_SIZE + HEADER_SIZE + 1 < 0x1_0000
    requires 1 + SumLen(fs.items) < 0x1_0000 && |records| < 0x1_0000_0000
    requires forall k | 0 <= k < |records| ::
      RecordStorable(fs.items, records[k], NewWriter(t, Sink([], 0), fs, codePage, now).value.encoder, fl)
    ensures var w := NewWriter(t, Sink([], 0), fs, codePage, now).value;
      var rd := NewReader(t, WrittenBytes(t, fs, codePage, now, records, fl));
      && WriteAll(w, records, fl).1.None?
      && rd.Ok?
      && rd.value.header == w.header.(recCount := |records|)
      && rd.value.fields == w.items
      && rd.value.decoder == w.encoder
      && rd.value.input == data + [FILE_END]
      && Holds(rd.value.fields, rd.value.header.recSize, data, records, rd.value.decoder, fl)
      && WrittenBytes(t, fs, codePage, now, records, fl)
         == HeaderBytes(rd.value.header) + DescriptorBytes(fs.items) + [HEADER_END] + data + [FILE_END]
  {
    var w := NewWriter(t, Sink([], 0), fs, codePage, now).value;
    data := WrittenFile(t, fs, codePage, now, records, fl);
    var file := WrittenBytes(t, fs, codePage, now, records, fl);
    var h := w.header.(recCount := |records|);
    NewWriterFieldCount(t, Sink([], 0), fs, codePage, now);
    ConcatAssoc(HeaderBytes(h) + DescriptorBytes(fs.items) + [HEADER_END], data, [FILE_END]);
    OpenWritten(t, h, fs.items, data + [FILE_END]);
    WrittenDecoder(t, fs, codePage, now, |records|);
  }

  /** Write then read: a file created on an empty stream from a valid field
      collection, filled with storable records and flushed, opens with the
      same fields, record count and code page, reads back every record in
      order, and then reports the end of the file. */
  lemma WriteThenRead(t: Table, fs: Fields, codePage: int, now: CivilDate, records: seq<seq<Value>>, fl: Floats)
    requires WellFormed(t) && NewWriter(t, Sink([], 0), fs, codePage, now).Ok?
    requires |fs.items| * FIELD_SIZE + HEADER_SIZE + 1 < 0x1_0000
    requires 0 < SumLen(fs.items) && 1 + SumLen(fs.items) < 0x1_0000
    requires |records| < 0x1_0000_0000
    requires forall k | 0 <= k < |records| ::
      RecordStorable(fs.items, records[k], NewWriter(t, Sink([], 0), fs, codePage, now).value.encoder, fl)
    ensures var rd := NewReader(t, WrittenBytes(t, fs, codePage, now, records, fl));
      && rd.Ok?
      && rd.value.fields == Layout(fs.items, 1)
      && RecordCount(rd.value) == |records|
      && DbfReader.CodePage(t, rd.value) == (if codePage > 0 then codePage else 0)
      && ReadN(rd.value, fl, |records|).1 == Oks(records)
      && DbfReader.Read(ReadN(rd.value, fl, |records|).0, fl).record == Err(EndOfFile)
  {
    var data := OpenFlushed(t, fs, codePage, now, records, fl);
    WrittenDecoder(t, fs, codePage, now, |records|);
    var rd := NewReader(t, WrittenBytes(t, fs, codePage, now, records, fl)).value;
    ReadNHolds(rd, fl, data, [FILE_END], records);
    var end := ReadN(rd, fl, |records|).0;
    assert DbfReader.Read(end, fl).record == Err(EndOfFile) by {
      RecSizeCoversLayout(fs.items);
      assert |end.input| < end.header.recSize;
    }
  }
}
