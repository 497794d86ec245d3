/** The sequential reader: it opens a stream by reading the header, the field
    descriptors and the header terminator, then hands out one record at a
    time as a sequence of values. */
module DbfReader {
  import opened Bytes
  import opened Wrappers
  import opened StrUtil
  import opened Strconv
  import opened Dates
  import opened CodePages
  import opened FieldDesc
  import opened FieldList
  import opened FileHeader

  /** `Reader`. The stream is the bytes not yet consumed; the record buffer
      exists only during one read, so it is not part of the state. */
  datatype Reader = Reader(
    header: Header,
    fields: seq<Field>,
    input: seq<byte>,
    recNo: uint32,
    decoder: Option<Charmap>,
    reuseRecord: bool,
    lastRecord: seq<Value>)

  /** The charmap a header's code page selects: none for page 0, otherwise
      the page's charmap. The page comes from a row of the table, so a
      charmap is always found. */
  function DecoderFor(t: Table, h: Header): (r: Option<Charmap>)
    ensures r.None? <==> FileHeader.CodePage(t, h) == 0
    ensures r.Some? ==> r == CharmapByPage(t, FileHeader.CodePage(t, h))
  {
    var cp := FileHeader.CodePage(t, h);
    if cp == 0 then None else CharmapByPage(t, cp)
  }

  /** `NewReader` / `initReader`: header, descriptors, then one byte (the
      0x0D terminator, not checked) is skipped. */
  function NewReader(t: Table, input: seq<byte>): (r: Result<Reader>)
    ensures ReadHeader(input).Err? ==> r == Err(ReadHeader(input).error)
    ensures ReadHeader(input).Ok? ==>
      var h := ReadHeader(input).value.0;
      var o := ReadItems(ReadHeader(input).value.1, FieldCount(h), 1);
      && (o.err.Some? ==> r == Err(o.err.value))
      && (o.err.None? && o.rest == [] ==> r == Err(EndOfFile))
      && (r.Ok? <==> o.err.None? && o.rest != [])
      && (r.Ok? ==> r.value.fields == o.items && r.value.input == o.rest[1..] && r.value.decoder == DecoderFor(t, h))
    ensures r.Ok? ==> ReadHeader(input).Ok? && r.value.header == ReadHeader(input).value.0
    ensures r.Ok? ==> |r.value.fields| == (if FieldCount(r.value.header) < 0 then 0 else FieldCount(r.value.header))
    ensures r.Ok? ==> r.value.recNo == 0 && !r.value.reuseRecord && r.value.lastRecord == []
  {
    var (h, rest) :- ReadHeader(input);
    var o := ReadItems(rest, FieldCount(h), 1);
    if o.err.Some? then Err(o.err.value)
    else if |o.rest| == 0 then Err(EndOfFile)
    else Ok(Reader(h, o.items, o.rest[1..], 0, DecoderFor(t, h), false, []))
  }

  /** The fields of an opened file are laid out one after the other from
      offset 1, whatever offsets the descriptors store. */
  lemma NewReaderLaidOut(t: Table, input: seq<byte>)
    requires NewReader(t, input).Ok?
    ensures var fields := NewReader(t, input).value.fields; fields == Layout(fields, 1)
  {
    var (h, rest) := ReadHeader(input).value;
    ReadItemsLaidOut(rest, FieldCount(h), 1);
  }

  /** `SetCodePage`: an unsupported page is refused and changes nothing. */
  function SetCodePage(t: Table, rd: Reader, page: int): (r: Result<Reader>)
    ensures r.Err? <==> CharmapByPage(t, page).None?
    ensures r.Err? ==> r.error == UnsupportedCodePage(page)
    ensures r.Ok? ==> r.value == rd.(decoder := CharmapByPage(t, page), header := r.value.header)
    ensures r.Ok? ==> r.value.header == FileHeader.SetCodePage(t, rd.header, page)
  {
    match CharmapByPage(t, page)
    case None => Err(UnsupportedCodePage(page))
    case Some(cm) =>
      Ok(rd.(decoder := Some(cm), header := FileHeader.SetCodePage(t, rd.header, page)))
  }

  function CodePage(t: Table, rd: Reader): int
  {
    FileHeader.CodePage(t, rd.header)
  }

  /** A page the reader accepts is the page it then reports. */
  lemma SetCodePageReported(t: Table, rd: Reader, page: int)
    requires WellFormed(t) && CharmapByPage(t, page).Some?
    ensures SetCodePage(t, rd, page).Ok?
    ensures CodePage(t, SetCodePage(t, rd, page).value) == page
  {
    PageByCodeByPage(t, page);
  }

  /** `RecordCount`: the count stored in the header, not the records present. */
  function RecordCount(rd: Reader): uint32
  {
    rd.header.recCount
  }

  /** `Fields`: what `Get` reports for each field, in order; a name without
      a NUL terminator is a slice panic. */
  function FieldInfos(fields: seq<Field>): (r: Result<seq<FieldInfo>>)
    ensures r.Ok? <==> forall i | 0 <= i < |fields| :: Name(fields[i]).Ok?
    ensures r.Err? ==> r.error == OutOfRange
    ensures r.Ok? ==>
      |r.value| == |fields| && forall i | 0 <= i < |fields| :: Get(Fields(fields, None), i) == Ok(r.value[i])
  {
    if |fields| == 0 then Ok([])
    else
      var name :- Name(fields[0]);
      var more :- FieldInfos(fields[1..]);
      var r := [FieldInfo(name, TypeName(fields[0].typ), fields[0].len, fields[0].dec)] + more;
      GetShift(fields);
      Ok(r)
  }

  lemma GetShift(fields: seq<Field>)
    requires |fields| > 0
    ensures forall i | 1 <= i < |fields| :: Get(Fields(fields, None), i) == Get(Fields(fields[1..], None), i - 1)
  {
  }

  // ------------------------------------------------------------- one field

  /** The text of a numeric slot as `fieldValue` hands it to the number
      parsers: white space trimmed, and an empty text or a lone point read as 0. */
  function NumericText(s: seq<byte>): (r: seq<byte>)
    ensures |r| > 0
    ensures TrimSpace(s) != [] && TrimSpace(s) != [DOT] ==> r == TrimSpace(s)
  {
    var t := TrimSpace(s);
    if t == [] || t == [DOT] then [DIGIT_0] else t
  }

  /** The kind of value a field holds. */
  predicate Suits(f: Field, v: Value)
  {
    if f.typ == CHAR_C then v.Chr?
    else if f.typ == CHAR_L then v.Log?
    else if f.typ == CHAR_D then v.Dat?
    else if f.typ == CHAR_N then (if f.dec == 0 then v.Int? else v.Flt?)
    else false
  }

  /** `fieldValue`: the value in one field of the record buffer. */
  function FieldValue(f: Field, buf: seq<byte>, cm: Option<Charmap>, fl: Floats): (r: Result<Value>)
    ensures !SlotFits(f, buf) ==> r == Err(OutOfRange)
    ensures SlotFits(f, buf) && f.typ !in {CHAR_C, CHAR_L, CHAR_D, CHAR_N} ==> r == Err(InvalidFieldType(f.typ))
    ensures r.Ok? ==> Suits(f, r.value)
    ensures f.typ == CHAR_C ==>
      (r.Ok? <==> StringFieldValue(f, buf, cm).Ok?) && (r.Ok? ==> r.value == Chr(StringFieldValue(f, buf, cm).value))
    ensures f.typ == CHAR_L ==>
      (r.Ok? <==> BoolFieldValue(f, buf).Ok?) && (r.Ok? ==> r.value == Log(BoolFieldValue(f, buf).value))
    ensures f.typ == CHAR_D ==>
      (r.Ok? <==> DateFieldValue(f, buf).Ok?) && (r.Ok? ==> r.value == Dat(DateFieldValue(f, buf).value))
    ensures f.typ == CHAR_N && f.dec == 0 && SlotFits(f, buf) ==>
      (r.Ok? <==> ParseInt(NumericText(FieldBuf(f, buf).value)).Ok?)
      && (r.Ok? ==> r.value == Int(ParseInt(NumericText(FieldBuf(f, buf).value)).value))
    ensures f.typ == CHAR_N && f.dec != 0 && SlotFits(f, buf) ==>
      (r.Ok? <==> fl.parse(NumericText(FieldBuf(f, buf).value)).Ok?)
      && (r.Ok? ==> r.value == Flt(fl.parse(NumericText(FieldBuf(f, buf).value)).value))
  {
    var s :- FieldBuf(f, buf);
    if f.typ == CHAR_C then
      var t :- DecodeText(cm, TrimRight(s));
      Ok(Chr(t))
    else if f.typ == CHAR_L then
      if |s| == 0 then Err(OutOfRange) else Ok(Log(IsTrue(s[0])))
    else if f.typ == CHAR_D then
      if IsEmpty(s) then Ok(Dat(ZERO_DATE))
      else
        var d :- Parse(s);
        Ok(Dat(d))
    else if f.typ == CHAR_N then
      if f.dec == 0 then
        var n :- ParseInt(NumericText(s));
        Ok(Int(n))
      else
        var x :- fl.parse(NumericText(s));
        Ok(Flt(x))
    else Err(InvalidFieldType(f.typ))
  }

  /** An integer slot whose text trims to the decimal form of `i` reads as `i`. */
  lemma IntSlotReads(f: Field, buf: seq<byte>, t: seq<byte>, i: int64, cm: Option<Charmap>, fl: Floats)
    requires f.typ == CHAR_N && f.dec == 0 && FieldBuf(f, buf) == Ok(t) && TrimSpace(t) == FormatInt(i)
    ensures FieldValue(f, buf, cm, fl) == Ok(Int(i))
  {
    assert FormatInt(i) != [DOT];
    assert NumericText(t) == FormatInt(i);
    ParseFormatInt(i);
  }

  /** The numeric reading is more lenient than `intFieldValue`: trailing
      white space is trimmed, and a lone point reads as 0. */
  lemma NumericLoneDot(f: Field, buf: seq<byte>, cm: Option<Charmap>, fl: Floats)
    requires f.typ == CHAR_N && f.dec == 0 && SlotFits(f, buf)
    requires FieldBuf(f, buf).value == PadLeft([DOT], f.len)
    ensures FieldValue(f, buf, cm, fl) == Ok(Int(0))
  {
    var s := FieldBuf(f, buf).value;
    TrimSpacePadLeft([DOT], f.len);
    ZeroParses();
  }

  // ------------------------------------------------------------ one record

  /** The values of all fields of one record buffer, or the error of the
      first field that fails, tagged with that field's name (an unreadable
      name panics). */
  function RecordValues(fields: seq<Field>, buf: seq<byte>, cm: Option<Charmap>, fl: Floats): (r: Result<seq<Value>>)
    ensures r.Ok? <==> forall i | 0 <= i < |fields| :: FieldValue(fields[i], buf, cm, fl).Ok?
    ensures r.Ok? ==>
      |r.value| == |fields| && forall i | 0 <= i < |fields| :: FieldValue(fields[i], buf, cm, fl) == Ok(r.value[i])
    ensures r.Err? ==> exists i | 0 <= i < |fields| ::
      && (forall j | 0 <= j < i :: FieldValue(fields[j], buf, cm, fl).Ok?)
      && FieldValue(fields[i], buf, cm, fl).Err?
      && r.error == FieldFailure(fields[i], FieldValue(fields[i], buf, cm, fl).error)
  {
    if |fields| == 0 then Ok([])
    else
      match FieldValue(fields[0], buf, cm, fl)
      case Err(e) => Err(FieldFailure(fields[0], e))
      case Ok(v) =>
        var more := RecordValues(fields[1..], buf, cm, fl);
        assert forall i | 0 <= i < |fields| - 1 :: fields[1..][i] == fields[i + 1];
        if more.Err? then
          Err(more.error)
        else
          Ok([v] + more.value)
  }

  /** The outcome of one read: the reader afterwards and the record or error. */
  datatype Step = Step(rd: Reader, record: Result<seq<Value>>)

  /** `readRecord`: the record number advances (as a `uint32`) before the
      read; a stream holding less than a full record is an end of file and
      is consumed. */
  function ReadRecord(rd: Reader, fl: Floats): (s: Step)
    ensures s.rd.recNo == Inc32(rd.recNo)
    ensures s.rd == rd.(recNo := s.rd.recNo, input := s.rd.input)
    ensures |rd.input| < rd.header.recSize ==> s.rd.input == [] && s.record == Err(EndOfFile)
    ensures |rd.input| >= rd.header.recSize ==>
      s.rd.input == rd.input[rd.header.recSize..]
      && (s.record.Ok? <==> RecordValues(rd.fields, rd.input[..rd.header.recSize], rd.decoder, fl).Ok?)
      && (s.record.Ok? ==> s.record == RecordValues(rd.fields, rd.input[..rd.header.recSize], rd.decoder, fl))
    ensures |rd.input| >= rd.header.recSize && s.record.Err? ==>
      s.record.error == RecordFailure(Inc32(rd.recNo), RecordValues(rd.fields, rd.input[..rd.header.recSize], rd.decoder, fl).error)
  {
    var recNo := Inc32(rd.recNo);
    var size := rd.header.recSize;
    if |rd.input| < size then
      Step(rd.(recNo := recNo, input := []), Err(EndOfFile))
    else
      var values := RecordValues(rd.fields, rd.input[..size], rd.decoder, fl);
      var record := if values.Err? then Err(RecordFailure(recNo, values.error)) else values;
      Step(rd.(recNo := recNo, input := rd.input[size..]), record)
  }

  /** `Read`: with `ReuseRecord` the record is cached for the next call. */
  function Read(rd: Reader, fl: Floats): (s: Step)
    ensures s.record == ReadRecord(rd, fl).record
    ensures !rd.reuseRecord ==> s == ReadRecord(rd, fl)
    ensures rd.reuseRecord ==> s.rd.lastRecord == (if s.record.Ok? then s.record.value else [])
  {
    var s := ReadRecord(rd, fl);
    if rd.reuseRecord then
      s.(rd := s.rd.(lastRecord := if s.record.Ok? then s.record.value else []))
    else s
  }

  /** Reusing the record slice changes where values are stored, never which
      values are read. */
  lemma ReuseRecordSameValues(rd: Reader, fl: Floats)
    ensures Read(rd.(reuseRecord := true), fl).record == Read(rd.(reuseRecord := false), fl).record
    ensures Read(rd.(reuseRecord := true), fl).rd.input == Read(rd.(reuseRecord := false), fl).rd.input
  {
  }

  // ------------------------------------------------------------ as written

  /** `readRecord` as the Go code returns it: a nil slice (None) or a record,
      and a nil error (None) or an error. With no fields the record slice is
      never allocated, so a successful read returns nil and nil. */
  function ReadRecordAsWritten(rd: Reader, fl: Floats, dst: seq<Value>): (r: (Option<seq<Value>>, Option<Error>))
    requires dst == [] || |dst| == |rd.fields|
  {
    var s := ReadRecord(rd, fl);
    match s.record
    case Err(e) => (None, Some(e))
    case Ok(values) => if |rd.fields| == 0 && dst == [] then (None, None) else (Some(values), None)
  }

  /** With no fields, a read that is not at the end of the stream returns
      neither a record nor an error, contrary to the promise that exactly
      one of the two is non-nil. */
  lemma AsWrittenNilNil(rd: Reader, fl: Floats)
    requires rd.fields == [] && |rd.input| >= rd.header.recSize
    ensures ReadRecordAsWritten(rd, fl, []) == (None, None)
  {
  }

  /** A concrete stream that shows it: a header with data offset 33 (no
      fields) and record size 1, the terminator, and one record holding the
      deletion mark only. */
  lemma AsWrittenNilNilExample(t: Table, fl: Floats)
    requires WellFormed(t)
    ensures var h := ZERO_HEADER.(id := DBF_ID, dataOffset := 33, recSize := 1);
      var r := NewReader(t, HeaderBytes(h) + [HEADER_END, SPACE]);
      r.Ok? && r.value.fields == [] && ReadRecordAsWritten(r.value, fl, []) == (None, None)
  {
    var h := ZERO_HEADER.(id := DBF_ID, dataOffset := 33, recSize := 1);
    ReadWrittenHeader(h, [HEADER_END, SPACE]);
    PageByCodeByPage(t, 0);
  }

  /** The corrected `readRecord` (`ReadRecord`) always returns exactly one of
      a record and an error: for zero fields the record is the empty one. */
  lemma ReadRecordExactlyOne(rd: Reader, fl: Floats)
    requires rd.fields == [] && |rd.input| >= rd.header.recSize
    ensures ReadRecord(rd, fl).record == Ok([])
  {
  }

  /** Where the Go code does allocate the record, the two agree. */
  lemma AsWrittenAgrees(rd: Reader, fl: Floats, dst: seq<Value>)
    requires dst == [] || |dst| == |rd.fields|
    requires |rd.fields| > 0
    ensures var (rec, err) := ReadRecordAsWritten(rd, fl, dst);
      (rec.Some? <==> err.None?)
      && (rec.Some? <==> ReadRecord(rd, fl).record.Ok?)
      && (rec.Some? ==> ReadRecord(rd, fl).record == Ok(rec.value))
      && (err.Some? ==> ReadRecord(rd, fl).record == Err(err.value))
  {
  }

  /** Once the stream is exhausted every further read is an end of file. */
  lemma EndOfFileSticks(rd: Reader, fl: Floats)
    requires rd.header.recSize > 0
    requires ReadRecord(rd, fl).record == Err(EndOfFile)
    ensures ReadRecord(ReadRecord(rd, fl).rd, fl).record == Err(EndOfFile)
  {
  }
}
