/** The random-access cursor of the `xbase` package: the field list, the
    open file, the number of the current record and that record's bytes.
    Moving the cursor clamps the record number to 0 .. RecCount + 1 and,
    inside that range, seeks to the record and reads it into the buffer. */
module Navigator {
  import opened Bytes
  import opened Wrappers
  import opened StrUtil
  import opened Strconv
  import opened Dates
  import opened CodePages
  import opened FieldDesc
  import FieldList
  import FileHeader
  import DbfReader

  /** `XBase`. The open file is its whole content (`None` until a file is
      opened); `buf` holds the current record. */
  datatype XBase = XBase(
    header: FileHeader.Header,
    fields: seq<Field>,
    file: Option<seq<byte>>,
    buf: seq<byte>,
    recNo: int,
    encoder: Option<Charmap>,
    decoder: Option<Charmap>)

  /** `New`, with the current date passed in: a fresh header, no fields,
      no file. */
  function New(now: CivilDate): (db: XBase)
    ensures db.header == FileHeader.FreshHeader(now)
    ensures db.fields == [] && db.file.None? && db.buf == [] && db.recNo == 0
    ensures db.encoder.None? && db.decoder.None?
  {
    XBase(FileHeader.FreshHeader(now), [], None, [], 0, None, None)
  }

  // ------------------------------------------------------------- position

  function RecNo(db: XBase): int
  {
    db.recNo
  }

  function RecCount(db: XBase): int
  {
    db.header.recCount
  }

  function FieldCount(db: XBase): int
  {
    |db.fields|
  }

  /** `EOF`: past the last record, or no records at all. */
  predicate EOF(db: XBase)
  {
    db.recNo > RecCount(db) || RecCount(db) == 0
  }

  /** `BOF`: before the first record, or no records at all. */
  predicate BOF(db: XBase)
  {
    db.recNo == 0 || RecCount(db) == 0
  }

  /** The record numbers the cursor can hold: 0 before the first record,
      RecCount + 1 after the last. */
  predicate Valid(db: XBase)
  {
    0 <= db.recNo <= RecCount(db) + 1
  }

  /** A new navigator has no fields and no records, stands at record 0, and
      is at both ends at once. */
  lemma NewIsEmpty(now: CivilDate)
    ensures var db := New(now);
      FieldCount(db) == 0 && RecCount(db) == 0 && RecNo(db) == 0 && BOF(db) && EOF(db) && Valid(db)
  {
  }

  /** On a valid cursor the two ends are exactly the two out-of-range
      positions, and a record is current exactly when neither holds. */
  lemma EndsIff(db: XBase)
    requires Valid(db)
    ensures EOF(db) <==> db.recNo == RecCount(db) + 1 || RecCount(db) == 0
    ensures BOF(db) <==> db.recNo == 0 || RecCount(db) == 0
    ensures !BOF(db) && !EOF(db) <==> 1 <= db.recNo <= RecCount(db)
  {
  }

  // ---------------------------------------------------------- field lookup

  /** Every field from `lo` up to (not including) `hi` has a readable name
      other than `n`. */
  predicate NoneNamed(fields: seq<Field>, n: seq<byte>, lo: int, hi: int)
  {
    0 <= lo && hi <= |fields| &&
    forall j | lo <= j < hi :: Name(fields[j]).Ok? && Name(fields[j]).value != n
  }

  /** The loop of `FieldNo` from field `i` on: the first field named `n`,
      numbered from 1, or 0 when none is. Comparing against a name without
      a NUL terminator panics. */
  function FindName(fields: seq<Field>, n: seq<byte>, i: nat): (r: Result<int>)
    requires i <= |fields|
    ensures r.Ok? ==> r.value == 0 || i < r.value <= |fields|
    ensures r.Ok? && r.value > 0 ==> Name(fields[r.value - 1]) == Ok(n)
    ensures r.Ok? ==> NoneNamed(fields, n, i, if r.value == 0 then |fields| else r.value - 1)
    ensures r.Err? ==> r.error == OutOfRange && exists j | i <= j < |fields| :: Name(fields[j]).Err? && NoneNamed(fields, n, i, j)
    decreases |fields| - i
  {
    if i == |fields| then Ok(0)
    else match Name(fields[i])
      case Err(e) => Err(e)
      case Ok(m) =>
        if m == n then Ok(i + 1)
        else
          NoneNamedStep(fields, n, i);
          FindName(fields, n, i + 1)
  }

  /** A readable name other than `n` at `i` extends a run without `n` down to `i`. */
  lemma NoneNamedStep(fields: seq<Field>, n: seq<byte>, i: int)
    requires 0 <= i < |fields| && Name(fields[i]).Ok? && Name(fields[i]).value != n
    ensures forall hi :: NoneNamed(fields, n, i + 1, hi) ==> NoneNamed(fields, n, i, hi)
  {
  }

  /** `FieldNo`: the number of the first field whose name is the trimmed,
      upper-cased `name`, or 0. */
  function FieldNo(db: XBase, name: seq<byte>): (r: Result<int>)
    ensures r.Ok? ==> 0 <= r.value <= |db.fields|
    ensures r.Ok? && r.value > 0 ==> Name(db.fields[r.value - 1]) == Ok(NormalizeName(name))
    ensures r.Ok? ==> NoneNamed(db.fields, NormalizeName(name), 0, if r.value == 0 then |db.fields| else r.value - 1)
    ensures (forall j | 0 <= j < |db.fields| :: Name(db.fields[j]).Ok?) ==> r.Ok?
    ensures r.Err? ==> r.error == OutOfRange
  {
    FindName(db.fields, NormalizeName(name), 0)
  }

  /** `fieldByNo`. */
  function FieldByNo(db: XBase, fieldNo: int): (r: Result<Field>)
    ensures r.Ok? <==> 1 <= fieldNo <= |db.fields|
    ensures r.Ok? ==> r.value == db.fields[fieldNo - 1]
    ensures r.Err? ==> r.error == FieldNoOutOfRange
  {
    if fieldNo < 1 || fieldNo > |db.fields| then Err(FieldNoOutOfRange) else Ok(db.fields[fieldNo - 1])
  }

  /** `wrapFieldError`: the field number, and the field's name when the
      number is in range (a name without a NUL terminator panics). A panic
      is passed through unwrapped. */
  function WrapFieldError(db: XBase, fieldNo: int, e: Error): (r: Error)
    ensures r == OutOfRange <==>
      e == OutOfRange || (1 <= fieldNo <= |db.fields| && Name(db.fields[fieldNo - 1]).Err?)
    ensures r != OutOfRange && !(1 <= fieldNo <= |db.fields|) ==> r == FieldNoError(fieldNo, None, e)
    ensures r != OutOfRange && 1 <= fieldNo <= |db.fields| ==>
      r == FieldNoError(fieldNo, Some(Name(db.fields[fieldNo - 1]).value), e)
  {
    if e == OutOfRange then OutOfRange
    else if fieldNo < 1 || fieldNo > |db.fields| then FieldNoError(fieldNo, None, e)
    else match Name(db.fields[fieldNo - 1])
      case Ok(name) => FieldNoError(fieldNo, Some(name), e)
      case Err(_) => OutOfRange
  }

  /** `FieldInfo`: name, the type byte as a one-byte string, length and
      decimal count of a field given by number. */
  function FieldInfo(db: XBase, fieldNo: int): (r: Result<FieldList.FieldInfo>)
    ensures !(1 <= fieldNo <= |db.fields|) ==> r == Err(FieldNoError(fieldNo, None, FieldNoOutOfRange))
    ensures r.Ok? <==> 1 <= fieldNo <= |db.fields| && Name(db.fields[fieldNo - 1]).Ok?
    ensures r.Err? && 1 <= fieldNo <= |db.fields| ==> r.error == OutOfRange
    ensures r.Ok? ==> var f := db.fields[fieldNo - 1];
      r.value.name == Name(f).value && r.value.typ == [f.typ] && r.value.length == f.len && r.value.dec == f.dec
  {
    match FieldByNo(db, fieldNo)
    case Err(e) => Err(WrapFieldError(db, fieldNo, e))
    case Ok(f) =>
      var name :- Name(f);
      Ok(FieldList.FieldInfo(name, [f.typ], f.len, f.dec))
  }

  /** A field found by name reports that name back. */
  lemma FieldNoInfo(db: XBase, name: seq<byte>)
    requires FieldNo(db, name).Ok? && FieldNo(db, name).value > 0
    ensures FieldInfo(db, FieldNo(db, name).value).Ok?
    ensures FieldInfo(db, FieldNo(db, name).value).value.name == NormalizeName(name)
  {
  }

  /** For ASCII type bytes the navigator's field report is the field
      collection's `Get` at the zero-based index; for a type byte from 0x80
      on, `Get` returns the two-byte UTF-8 form where `FieldInfo` returns the
      raw byte. */
  lemma FieldInfoAgreesWithGet(db: XBase, fieldNo: int)
    requires 1 <= fieldNo <= |db.fields|
    ensures db.fields[fieldNo - 1].typ < 0x80 ==>
      FieldInfo(db, fieldNo) == FieldList.Get(FieldList.Fields(db.fields, None), fieldNo - 1)
    ensures db.fields[fieldNo - 1].typ >= 0x80 && FieldInfo(db, fieldNo).Ok? ==>
      FieldInfo(db, fieldNo).value.typ != FieldList.Get(FieldList.Fields(db.fields, None), fieldNo - 1).value.typ
  {
  }

  // ------------------------------------------------------------- structure

  /** `AddField`, given the outcome of the field constructor: an error is
      tagged with the name as given, a field is appended. */
  function AddField(db: XBase, name: seq<byte>, made: Result<Field>): (r: Result<XBase>)
    ensures r.Ok? <==> made.Ok?
    ensures made.Err? ==> r.error == if made.error == OutOfRange then OutOfRange else FieldError(name, made.error)
    ensures r.Ok? ==> r.value == db.(fields := r.value.fields)
    ensures r.Ok? ==>
      |r.value.fields| == |db.fields| + 1 && r.value.fields[..|db.fields|] == db.fields
      && r.value.fields[|db.fields|] == made.value
  {
    match made
    case Err(e) => Err(if e == OutOfRange then OutOfRange else FieldError(name, e))
    case Ok(f) => Ok(db.(fields := db.fields + [f]))
  }

  /** A field added under a name no earlier field carries is found by that
      name, as the last field. */
  lemma FieldNoFindsAdded(db: XBase, name: seq<byte>, made: Result<Field>)
    requires made.Ok? && Name(made.value) == Ok(NormalizeName(name))
    requires NoneNamed(db.fields, NormalizeName(name), 0, |db.fields|)
    ensures FieldNo(AddField(db, name, made).value, name) == Ok(|db.fields| + 1)
  {
    var n := NormalizeName(name);
    NoneNamedExtended(db.fields, [made.value], n, |db.fields|);
    FirstMatchIsLast(db.fields + [made.value], n);
  }

  lemma NoneNamedExtended(fields: seq<Field>, more: seq<Field>, n: seq<byte>, hi: int)
    requires NoneNamed(fields, n, 0, hi) && hi <= |fields|
    ensures NoneNamed(fields + more, n, 0, hi)
  {
    assert forall j | 0 <= j < hi :: (fields + more)[j] == fields[j];
  }

  /** A name that only the last field carries is found there. */
  lemma FirstMatchIsLast(fields: seq<Field>, n: seq<byte>)
    requires |fields| > 0 && Name(fields[|fields| - 1]) == Ok(n)
    requires NoneNamed(fields, n, 0, |fields| - 1)
    ensures FindName(fields, n, 0) == Ok(|fields|)
  {
    assert FindName(fields, n, 0).Ok?;
  }

  /** `SetCodePage`: an unsupported page changes nothing; a supported one
      sets both charmaps and the header byte. */
  function SetCodePage(t: Table, db: XBase, page: int): (r: XBase)
    ensures CharmapByPage(t, page).None? ==> r == db
    ensures CharmapByPage(t, page).Some? ==>
      r == db.(encoder := CharmapByPage(t, page), decoder := CharmapByPage(t, page),
               header := db.header.(cp := r.header.cp))
  {
    match CharmapByPage(t, page)
    case None => db
    case Some(cm) => db.(encoder := Some(cm), decoder := Some(cm), header := FileHeader.SetCodePage(t, db.header, page))
  }

  /** `CodePage`: the header's page. */
  function CodePage(t: Table, db: XBase): int
  {
    FileHeader.CodePage(t, db.header)
  }

  /** A supported page is reported back; an unsupported one leaves the
      reported page as it was. */
  lemma SetCodePageReported(t: Table, db: XBase, page: int)
    requires WellFormed(t)
    ensures CodePage(t, SetCodePage(t, db, page)) == if CharmapByPage(t, page).Some? then page else CodePage(t, db)
  {
    FileHeader.CodePageRoundTrip(t, db.header, page);
  }

  /** `OpenFile`, given the file's content or the error opening it: the
      header, then as many descriptors as the header announces, appended to
      the fields already there and laid out from offset 1; a zeroed record
      buffer; and the header's code page. The cursor does not move. */
  function OpenFile(t: Table, db: XBase, content: Result<seq<byte>>): (r: Result<XBase>)
    ensures content.Err? ==> r == Err(content.error)
    ensures content.Ok? && FileHeader.ReadHeader(content.value).Err? ==> r == Err(FileHeader.ReadHeader(content.value).error)
    ensures r.Ok? ==> content.Ok? && FileHeader.ReadHeader(content.value).Ok?
    ensures r.Ok? ==> var (h, rest) := FileHeader.ReadHeader(content.value).value;
      var o := FieldList.ReadItems(rest, FileHeader.FieldCount(h), 1);
      && o.err.None?
      && r.value.header == h.(cp := r.value.header.cp)
      && r.value.fields == db.fields + o.items
      && r.value.file == Some(content.value)
      && |r.value.buf| == h.recSize && r.value.recNo == db.recNo
      && var cm := CharmapByPage(t, FileHeader.CodePage(t, h));
      && (cm.Some? ==> r.value.encoder == cm && r.value.decoder == cm)
      && (cm.None? ==> r.value.encoder == db.encoder && r.value.decoder == db.decoder && r.value.header == h)
  {
    var data :- content;
    var (h, rest) :- FileHeader.ReadHeader(data);
    var o := FieldList.ReadItems(rest, FileHeader.FieldCount(h), 1);
    if o.err.Some? then Err(o.err.value)
    else
      var loaded := db.(header := h, fields := db.fields + o.items, file := Some(data), buf := Zeros(h.recSize));
      Ok(SetCodePage(t, loaded, FileHeader.CodePage(t, h)))
  }

  /** With a well-formed code-page table, the opened navigator reports the
      page named in the file's header. */
  lemma OpenFileCodePage(t: Table, db: XBase, data: seq<byte>)
    requires WellFormed(t) && OpenFile(t, db, Ok(data)).Ok?
    ensures CodePage(t, OpenFile(t, db, Ok(data)).value) == FileHeader.CodePage(t, FileHeader.ReadHeader(data).value.0)
  {
    var h := FileHeader.ReadHeader(data).value.0;
    var r := OpenFile(t, db, Ok(data)).value;
    FileHeader.CodePageRoundTrip(t, r.header, FileHeader.CodePage(t, h));
    if CharmapByPage(t, FileHeader.CodePage(t, h)).Some? {
      FileHeader.CodePageRoundTrip(t, h, FileHeader.CodePage(t, h));
      assert r.header == FileHeader.SetCodePage(t, h, FileHeader.CodePage(t, h));
    }
  }

  // -------------------------------------------------------------- moving

  /** The outcome of a move: the navigator afterwards and the error, if any. */
  datatype Moved = Moved(db: XBase, err: Option<Error>)

  /** Where record `n` (from 1) starts in the file. */
  function RecordOffset(h: FileHeader.Header, n: int): (r: int)
    ensures n >= 1 ==> r >= h.dataOffset
  {
    h.dataOffset + h.recSize * (n - 1)
  }

  /** `File.Read` into `buf` after a seek to `off`: as many bytes as both
      the buffer and the rest of the file hold are copied into the front of
      the buffer; with nothing left to read the result is io.EOF, unless the
      buffer is empty. */
  function ReadAt(data: seq<byte>, off: nat, buf: seq<byte>): (r: (seq<byte>, Option<Error>))
    ensures |r.0| == |buf|
    ensures r.1.Some? <==> 0 < |buf| && |data| <= off
    ensures r.1.Some? ==> r.0 == buf && r.1 == Some(EndOfFile)
    ensures off + |buf| <= |data| ==> r.0 == data[off..off + |buf|]
    ensures off < |data| < off + |buf| ==> r.0[..|data| - off] == data[off..] && r.0[|data| - off..] == buf[|data| - off..]
  {
    if |buf| == 0 then (buf, None)
    else if off >= |data| then (buf, Some(EndOfFile))
    else
      var k := if |buf| <= |data| - off then |buf| else |data| - off;
      (data[off..off + k] + buf[k..], None)
  }

  /** `goTo`: a number before the first record moves to 0, one after the
      last to RecCount + 1, and neither touches the file; otherwise the
      number is taken and the record read into the buffer. The number is
      set even when the seek or read then fails. */
  function GoTo(db: XBase, n: int): (m: Moved)
    ensures Valid(m.db)
    ensures n < 1 ==> m.db.recNo == 0
    ensures n > RecCount(db) ==> m.db.recNo == RecCount(db) + 1
    ensures 1 <= n <= RecCount(db) ==> m.db.recNo == n
    ensures m.db == db.(recNo := m.db.recNo, buf := m.db.buf) && |m.db.buf| == |db.buf|
    ensures !(1 <= n <= RecCount(db)) ==> m == Moved(m.db, None) && m.db.buf == db.buf
    ensures m.err.Some? ==> m.db.buf == db.buf
    ensures 1 <= n <= RecCount(db) && db.file.None? ==> m.err == Some(FileNotOpen)
    ensures 1 <= n <= RecCount(db) && db.file.Some? && RecordOffset(db.header, n) + |db.buf| <= |db.file.value| ==>
      m.err.None? && m.db.buf == db.file.value[RecordOffset(db.header, n)..RecordOffset(db.header, n) + |db.buf|]
  {
    if n < 1 then Moved(db.(recNo := 0), None)
    else if n > RecCount(db) then Moved(db.(recNo := RecCount(db) + 1), None)
    else
      var at := db.(recNo := n);
      match db.file
      case None => Moved(at, Some(FileNotOpen))
      case Some(data) =>
        var (buf, err) := ReadAt(data, RecordOffset(db.header, n), db.buf);
        Moved(at.(buf := buf), err)
  }

  /** `First`. */
  function First(db: XBase): Moved
  {
    GoTo(db, 1)
  }

  /** `Last`. */
  function Last(db: XBase): Moved
  {
    GoTo(db, RecCount(db))
  }

  /** `Next`. */
  function Next(db: XBase): Moved
  {
    GoTo(db, db.recNo + 1)
  }

  /** `Prev`. */
  function Prev(db: XBase): Moved
  {
    GoTo(db, db.recNo - 1)
  }

  /** On a file with records, First and Last land on a record; on an empty
      one both leave the cursor at an end (First past it, Last before it). */
  lemma FirstLast(db: XBase)
    ensures RecCount(db) > 0 ==> First(db).db.recNo == 1 && !BOF(First(db).db) && !EOF(First(db).db)
    ensures RecCount(db) > 0 ==> Last(db).db.recNo == RecCount(db) && !BOF(Last(db).db) && !EOF(Last(db).db)
    ensures RecCount(db) == 0 ==> First(db).db.recNo == 1 && Last(db).db.recNo == 0
  {
  }

  /** Next then Prev comes back, from anywhere but past the end; Prev then
      Next comes back, from anywhere but before the start. */
  lemma NextPrev(db: XBase)
    requires Valid(db)
    ensures db.recNo <= RecCount(db) ==> Prev(Next(db).db).db.recNo == db.recNo
    ensures 1 <= db.recNo ==> Next(Prev(db).db).db.recNo == db.recNo
  {
  }

  /** Next past the end and Prev before the start stay where they are. */
  lemma EndsStick(db: XBase)
    requires Valid(db)
    ensures db.recNo == RecCount(db) + 1 ==> Next(db) == Moved(db, None)
    ensures db.recNo == 0 ==> Prev(db) == Moved(db, None)
  {
  }

  /** `k` calls of Next, errors ignored. */
  function NextN(db: XBase, k: nat): (r: XBase)
    ensures r == db.(recNo := r.recNo, buf := r.buf)
    decreases k
  {
    if k == 0 then db else NextN(Next(db).db, k - 1)
  }

  /** Each Next moves one record on, until the cursor is past the end. */
  lemma {:induction false} NextNRecNo(db: XBase, k: nat)
    requires Valid(db)
    ensures NextN(db, k).recNo == if db.recNo + k <= RecCount(db) + 1 then db.recNo + k else RecCount(db) + 1
    decreases k
  {
    if k > 0 {
      NextNRecNo(Next(db).db, k - 1);
    }
  }

  /** The usual scan `First(); for !EOF() { ...; Next() }`: the record
      numbers it visits, in order. */
  method Scan(db: XBase) returns (visited: seq<int>)
    ensures |visited| == RecCount(db)
    ensures forall i | 0 <= i < |visited| :: visited[i] == i + 1
  {
    var cur := First(db).db;
    visited := [];
    while !EOF(cur)
      invariant cur == db.(recNo := cur.recNo, buf := cur.buf)
      invariant RecCount(db) > 0 ==> cur.recNo == |visited| + 1
      invariant |visited| <= RecCount(db)
      invariant forall i | 0 <= i < |visited| :: visited[i] == i + 1
      decreases RecCount(db) + 1 - cur.recNo
    {
      visited := visited + [cur.recNo];
      cur := Next(cur).db;
    }
  }

  // ------------------------------------------------------------ values

  /** `fieldByNo` then the field's `value` on the current record, the errors
      tagged by `wrapFieldError`. */
  function FieldValueOf(db: XBase, fieldNo: int, cm: Option<Charmap>, fl: Floats): (r: Result<Value>)
    ensures !(1 <= fieldNo <= |db.fields|) ==> r == Err(FieldNoError(fieldNo, None, FieldNoOutOfRange))
    ensures 1 <= fieldNo <= |db.fields| ==>
      var v := DbfReader.FieldValue(db.fields[fieldNo - 1], db.buf, cm, fl);
      (r.Ok? <==> v.Ok?) && (r.Ok? ==> r == v) && (r.Err? ==> r.error == WrapFieldError(db, fieldNo, v.error))
  {
    match FieldByNo(db, fieldNo)
    case Err(e) => Err(WrapFieldError(db, fieldNo, e))
    case Ok(f) =>
      match DbfReader.FieldValue(f, db.buf, cm, fl)
      case Err(e) => Err(WrapFieldError(db, fieldNo, e))
      case Ok(v) => Ok(v)
  }

  /** `FieldValueAsString`: decoded with the navigator's code page. */
  function FieldValueAsString(db: XBase, fieldNo: int, fl: Floats): (r: Result<seq<byte>>)
    ensures r.Ok? ==> 1 <= fieldNo <= |db.fields| && db.fields[fieldNo - 1].typ == CHAR_C
    ensures r.Ok? ==> FieldValueOf(db, fieldNo, db.decoder, fl) == Ok(Chr(r.value))
    ensures FieldValueOf(db, fieldNo, db.decoder, fl).Ok? && !FieldValueOf(db, fieldNo, db.decoder, fl).value.Chr? ==>
      r == Err(WrongKind)
  {
    var v :- FieldValueOf(db, fieldNo, db.decoder, fl);
    if v.Chr? then Ok(v.s) else Err(WrongKind)
  }

  /** `FieldValueAsInt`: a numeric field without decimals. */
  function FieldValueAsInt(db: XBase, fieldNo: int, fl: Floats): (r: Result<int64>)
    ensures r.Ok? ==> 1 <= fieldNo <= |db.fields| && db.fields[fieldNo - 1].typ == CHAR_N && db.fields[fieldNo - 1].dec == 0
    ensures r.Ok? ==> FieldValueOf(db, fieldNo, None, fl) == Ok(Int(r.value))
    ensures FieldValueOf(db, fieldNo, None, fl).Ok? && !FieldValueOf(db, fieldNo, None, fl).value.Int? ==>
      r == Err(WrongKind)
  {
    var v :- FieldValueOf(db, fieldNo, None, fl);
    if v.Int? then Ok(v.i) else Err(WrongKind)
  }

  /** `FieldValueAsFloat`: a numeric field with decimals. */
  function FieldValueAsFloat(db: XBase, fieldNo: int, fl: Floats): (r: Result<Float>)
    ensures r.Ok? ==> 1 <= fieldNo <= |db.fields| && db.fields[fieldNo - 1].typ == CHAR_N && db.fields[fieldNo - 1].dec != 0
    ensures r.Ok? ==> FieldValueOf(db, fieldNo, None, fl) == Ok(Flt(r.value))
    ensures FieldValueOf(db, fieldNo, None, fl).Ok? && !FieldValueOf(db, fieldNo, None, fl).value.Flt? ==>
      r == Err(WrongKind)
  {
    var v :- FieldValueOf(db, fieldNo, None, fl);
    if v.Flt? then Ok(v.x) else Err(WrongKind)
  }

  /** `FieldValueAsBool`: a logical field. */
  function FieldValueAsBool(db: XBase, fieldNo: int, fl: Floats): (r: Result<bool>)
    ensures r.Ok? ==> 1 <= fieldNo <= |db.fields| && db.fields[fieldNo - 1].typ == CHAR_L
    ensures r.Ok? ==> FieldValueOf(db, fieldNo, None, fl) == Ok(Log(r.value))
    ensures FieldValueOf(db, fieldNo, None, fl).Ok? && !FieldValueOf(db, fieldNo, None, fl).value.Log? ==>
      r == Err(WrongKind)
  {
    var v :- FieldValueOf(db, fieldNo, None, fl);
    if v.Log? then Ok(v.b) else Err(WrongKind)
  }

  /** `FieldValueAsDate`: a date field. */
  function FieldValueAsDate(db: XBase, fieldNo: int, fl: Floats): (r: Result<CivilDate>)
    ensures r.Ok? ==> 1 <= fieldNo <= |db.fields| && db.fields[fieldNo - 1].typ == CHAR_D
    ensures r.Ok? ==> FieldValueOf(db, fieldNo, None, fl) == Ok(Dat(r.value))
    ensures FieldValueOf(db, fieldNo, None, fl).Ok? && !FieldValueOf(db, fieldNo, None, fl).value.Dat? ==>
      r == Err(WrongKind)
  {
    var v :- FieldValueOf(db, fieldNo, None, fl);
    if v.Dat? then Ok(v.d) else Err(WrongKind)
  }

  /** Only character fields are decoded, so the other getters read the same
      value whatever charmap is current. */
  lemma NonCharacterIgnoresCharmap(db: XBase, fieldNo: int, cm: Option<Charmap>, fl: Floats)
    requires 1 <= fieldNo <= |db.fields| && db.fields[fieldNo - 1].typ != CHAR_C
    ensures FieldValueOf(db, fieldNo, cm, fl) == FieldValueOf(db, fieldNo, None, fl)
  {
  }

  /** The typed getters return, for a field of the matching kind, exactly
      the value the record's field holds. */
  lemma GettersReadValue(db: XBase, fieldNo: int, fl: Floats, v: Value)
    requires 1 <= fieldNo <= |db.fields|
    requires FieldValueOf(db, fieldNo, db.decoder, fl) == Ok(v)
    ensures v.Chr? ==> FieldValueAsString(db, fieldNo, fl) == Ok(v.s)
    ensures v.Int? ==> FieldValueAsInt(db, fieldNo, fl) == Ok(v.i)
    ensures v.Flt? ==> FieldValueAsFloat(db, fieldNo, fl) == Ok(v.x)
    ensures v.Log? ==> FieldValueAsBool(db, fieldNo, fl) == Ok(v.b)
    ensures v.Dat? ==> FieldValueAsDate(db, fieldNo, fl) == Ok(v.d)
  {
    if !v.Chr? {
      NonCharacterIgnoresCharmap(db, fieldNo, db.decoder, fl);
    }
  }

  /** When the current record reads as `record`, field `i` (from 1) reads as
      its `i`-th value. */
  lemma CurrentRecordFields(db: XBase, fl: Floats, record: seq<Value>)
    requires DbfReader.RecordValues(db.fields, db.buf, db.decoder, fl) == Ok(record)
    ensures |record| == |db.fields|
    ensures forall i | 1 <= i <= |db.fields| :: FieldValueOf(db, i, db.decoder, fl) == Ok(record[i - 1])
  {
    forall i | 1 <= i <= |db.fields|
      ensures FieldValueOf(db, i, db.decoder, fl) == Ok(record[i - 1])
    {
      assert DbfReader.FieldValue(db.fields[i - 1], db.buf, db.decoder, fl) == Ok(record[i - 1]);
    }
  }

  /** An integer stored by `setIntFieldValue` in the current record is what
      `FieldValueAsInt` returns. */
  lemma IntStoredReadBack(db: XBase, fieldNo: int, v: int64, fl: Floats)
    requires 1 <= fieldNo <= |db.fields|
    requires var f := db.fields[fieldNo - 1];
      f.typ == CHAR_N && f.dec == 0 && SlotFits(f, db.buf) && |FormatInt(v)| <= f.len
    ensures SetIntFieldValue(db.fields[fieldNo - 1], db.buf, v).Ok?
    ensures FieldValueAsInt(db.(buf := SetIntFieldValue(db.fields[fieldNo - 1], db.buf, v).value), fieldNo, fl) == Ok(v)
  {
    var f := db.fields[fieldNo - 1];
    var buf := SetIntFieldValue(f, db.buf, v).value;
    IntSlotReadBack(db.(buf := buf), fieldNo, IntText(f, v).value, v, fl);
  }

  /** A numeric slot whose text trims to the decimal form of `v` reads as `v`. */
  lemma IntSlotReadBack(db: XBase, fieldNo: int, t: seq<byte>, v: int64, fl: Floats)
    requires 1 <= fieldNo <= |db.fields|
    requires var f := db.fields[fieldNo - 1];
      f.typ == CHAR_N && f.dec == 0 && FieldBuf(f, db.buf) == Ok(t) && TrimSpace(t) == FormatInt(v)
    ensures FieldValueAsInt(db, fieldNo, fl) == Ok(v)
  {
    assert DbfReader.NumericText(t) == FormatInt(v);
    ParseFormatInt(v);
  }

  /** A string stored by `setStringFieldValue` with the navigator's charmap
      is what `FieldValueAsString` returns. */
  lemma StringStoredReadBack(db: XBase, fieldNo: int, v: seq<byte>, fl: Floats)
    requires 1 <= fieldNo <= |db.fields|
    requires var f := db.fields[fieldNo - 1]; f.typ == CHAR_C && SlotFits(f, db.buf) && Stores(db.encoder, v, f.len)
    requires db.decoder == db.encoder
    ensures SetStringFieldValue(db.fields[fieldNo - 1], db.buf, v, db.encoder).Ok?
    ensures FieldValueAsString(db.(buf := SetStringFieldValue(db.fields[fieldNo - 1], db.buf, v, db.encoder).value),
                               fieldNo, fl) == Ok(v)
  {
    StringRoundTrip(db.fields[fieldNo - 1], db.buf, v, db.encoder);
  }
}
