/** The sequential writer: it emits the header, the field descriptors and
    the header terminator when created, appends one fixed-width record per
    call, and on flushing appends the end-of-file byte and rewrites the
    header with the final record count. */
module DbfWriter {
  import opened Bytes
  import opened Wrappers
  import opened StrUtil
  import opened Strconv
  import opened Dates
  import opened CodePages
  import opened FieldDesc
  import opened FieldList
  import opened FileHeader

  /** The `io.WriteSeeker` written to: its content and current position. */
  datatype Sink = Sink(data: seq<byte>, pos: nat)

  type Stream = s: Sink | s.pos <= |s.data| witness Sink([], 0)

  /** `Writer`. `pending` holds what has been written through the buffered
      writer and not yet flushed to the stream. */
  datatype Writer = Writer(
    header: Header,
    items: seq<Field>,
    sink: Stream,
    pending: seq<byte>,
    buf: seq<byte>,
    encoder: Option<Charmap>,
    recCount: uint32)

  /** `NewWriter` and `initWriter`: the field collection must hold no error
      and at least one field, a positive code page must be supported; then
      the header (field count, record width, code page), the descriptors
      and the terminator are queued, and the record buffer starts with the
      deletion mark. A zero record width would make `buf[0]` panic. */
  function NewWriter(t: Table, sink: Stream, fs: Fields, codePage: int, now: CivilDate): (r: Result<Writer>)
    ensures fs.err.Some? ==> r == Err(fs.err.value)
    ensures fs.err.None? && fs.items == [] ==> r == Err(NoFields)
    ensures fs.err.None? && fs.items != [] && codePage > 0 && CharmapByPage(t, codePage).None? ==>
      r == Err(UnsupportedCodePage(codePage))
    ensures r.Ok? ==>
      var w := r.value;
      && fs.err.None? && fs.items != []
      && w.items == Layout(fs.items, 1) && w.sink == sink && w.recCount == 0
      && w.encoder == (if codePage > 0 then CharmapByPage(t, codePage) else None)
      && w.header.recSize == CalcRecSize(fs.items) && w.header.recCount == 0
      && w.header.id == DBF_ID && w.header.dataOffset == ToUint16(|fs.items| * FIELD_SIZE + HEADER_SIZE + 1)
      && w.pending == HeaderBytes(w.header) + DescriptorBytes(fs.items) + [HEADER_END]
      && |w.buf| == w.header.recSize > 0 && w.buf[0] == SPACE
    ensures r.Ok? ==> r.value.header.filler1 == Zeros(17) && r.value.header.filler2 == Zeros(2)
    ensures r.Ok? && YEAR_OFFSET <= now.year <= YEAR_OFFSET + 255 ==> ModDate(r.value.header) == now
  {
    if fs.err.Some? then Err(fs.err.value)
    else if |fs.items| == 0 then Err(NoFields)
    else
      var h := FreshHeader(now);
      var cm := if codePage > 0 then CharmapByPage(t, codePage) else None;
      if codePage > 0 && cm.None? then Err(UnsupportedCodePage(codePage))
      else
        var h := if codePage > 0 then FileHeader.SetCodePage(t, h, codePage) else h;
        var h := SetFieldCount(h, Count(fs)).(recSize := CalcRecSize(fs.items));
        var (descriptors, laidOut) := FieldList.Write(fs);
        var size := h.recSize;
        if size == 0 then Err(OutOfRange)
        else
          Ok(Writer(h, laidOut.items, sink, HeaderBytes(h) + descriptors + [HEADER_END],
                    [SPACE] + Zeros(size - 1), cm, 0))
  }

  /** The header of a new writer carries the page asked for, or none. */
  lemma NewWriterCodePage(t: Table, sink: Stream, fs: Fields, codePage: int, now: CivilDate)
    requires WellFormed(t) && NewWriter(t, sink, fs, codePage, now).Ok?
    ensures FileHeader.CodePage(t, NewWriter(t, sink, fs, codePage, now).value.header) == (if codePage > 0 then codePage else 0)
  {
    if codePage > 0 {
      PageByCodeByPage(t, codePage);
    }
  }

  /** The header of a new writer reads back its field count while the data
      offset fits in 16 bits. */
  lemma NewWriterFieldCount(t: Table, sink: Stream, fs: Fields, codePage: int, now: CivilDate)
    requires NewWriter(t, sink, fs, codePage, now).Ok?
    requires |fs.items| * FIELD_SIZE + HEADER_SIZE + 1 < 0x1_0000
    ensures FieldCount(NewWriter(t, sink, fs, codePage, now).value.header) == |fs.items|
  {
    FieldCountOf(NewWriter(t, sink, fs, codePage, now).value.header, |fs.items|);
  }

  // ------------------------------------------------------- value to text

  /** The kinds of value the conversions accept for a field: strings for C,
      booleans for L, dates for D, integers for N without decimals, and
      floats or integers for N with decimals. */
  predicate Accepts(f: Field, v: Value)
  {
    if f.typ == CHAR_C then v.Chr?
    else if f.typ == CHAR_L then v.Log?
    else if f.typ == CHAR_D then v.Dat?
    else if f.typ == CHAR_N then (if f.dec == 0 then v.Int? else v.Flt? || v.Int?)
    else false
  }

  /** `interfaceToFloat`: an integer is converted to a float. */
  function AsFloat(v: Value, fl: Floats): (r: Result<Float>)
    ensures r.Ok? <==> v.Flt? || v.Int?
    ensures r.Err? ==> r.error == TypeMismatch
  {
    match v
    case Flt(x) => Ok(x)
    case Int(i) => Ok(fl.fromInt(i))
    case _ => Err(TypeMismatch)
  }

  /** The text `setFieldValue` copies into a field's slot: padded to the
      field width for C and N, one letter for L, eight digits for D. */
  function ValueText(f: Field, v: Value, cm: Option<Charmap>, fl: Floats): (r: Result<seq<byte>>)
    ensures f.typ !in {CHAR_C, CHAR_L, CHAR_D, CHAR_N} ==> r == Err(InvalidFieldType(f.typ))
    ensures f.typ in {CHAR_C, CHAR_L, CHAR_D, CHAR_N} && !Accepts(f, v) ==> r == Err(TypeMismatch)
    ensures r.Ok? ==> Accepts(f, v)
    ensures r.Ok? && f.typ in {CHAR_C, CHAR_N} ==> |r.value| == f.len
    ensures f.typ == CHAR_C && v.Chr? ==> r == CharacterText(f, v.s, cm)
    ensures f.typ == CHAR_L && v.Log? ==> r == Ok(BoolText(v.b))
    ensures f.typ == CHAR_D && v.Dat? ==> r == Ok(Format(v.d))
    ensures f.typ == CHAR_N && f.dec == 0 && v.Int? ==> r == IntText(f, v.i)
  {
    if f.typ == CHAR_C then
      if v.Chr? then CharacterText(f, v.s, cm) else Err(TypeMismatch)
    else if f.typ == CHAR_L then
      if v.Log? then Ok(BoolText(v.b)) else Err(TypeMismatch)
    else if f.typ == CHAR_D then
      if v.Dat? then Ok(Format(v.d)) else Err(TypeMismatch)
    else if f.typ == CHAR_N then
      if f.dec == 0 then
        if v.Int? then IntText(f, v.i) else Err(TypeMismatch)
      else
        var x :- AsFloat(v, fl);
        FloatText(f, x, fl)
    else Err(InvalidFieldType(f.typ))
  }

  /** `setFieldValue`: the text is copied into the slot, at most its width. */
  function SetFieldValue(f: Field, buf: seq<byte>, v: Value, cm: Option<Charmap>, fl: Floats): (r: Result<seq<byte>>)
    ensures ValueText(f, v, cm, fl).Err? ==> r == Err(ValueText(f, v, cm, fl).error)
    ensures ValueText(f, v, cm, fl).Ok? ==> (r.Ok? <==> SlotFits(f, buf))
    ensures r.Ok? ==> Frame(f, buf, r.value) && Written(f, r.value, ValueText(f, v, cm, fl).value)
  {
    var s :- ValueText(f, v, cm, fl);
    SetFieldBuf(f, buf, s)
  }

  /** The slot of `f` in `buf` starts with `s` (as much of it as fits). */
  predicate Written(f: Field, buf: seq<byte>, s: seq<byte>)
  {
    SlotFits(f, buf) && forall i | 0 <= i < f.len && i < |s| :: buf[f.offset + i] == s[i]
  }

  // ---------------------------------------------------------- one record

  /** The record buffer after the fields from `k` on were set, and the
      error that stopped it, if any; earlier fields stay set on an error. */
  datatype Fill = Fill(buf: seq<byte>, err: Option<Error>)

  /** The loop of `writeRecord` over the fields, from field `k`. */
  function FillFields(items: seq<Field>, buf: seq<byte>, vals: seq<Value>, cm: Option<Charmap>, fl: Floats, k: nat): (r: Fill)
    requires |vals| == |items| && k <= |items|
    ensures |r.buf| == |buf|
    decreases |items| - k
  {
    if k == |items| then Fill(buf, None)
    else match SetFieldValue(items[k], buf, vals[k], cm, fl)
      case Err(e) => Fill(buf, Some(FieldFailure(items[k], e)))
      case Ok(next) => FillFields(items, next, vals, cm, fl, k + 1)
  }

  /** The loop succeeds exactly when every field from `k` on has a text and
      a slot inside the buffer. */
  lemma {:induction false} FillFieldsOk(items: seq<Field>, buf: seq<byte>, vals: seq<Value>, cm: Option<Charmap>,
                                        fl: Floats, k: nat)
    requires |vals| == |items| && k <= |items|
    ensures FillFields(items, buf, vals, cm, fl, k).err.None? <==> forall j | k <= j < |items| ::
      ValueText(items[j], vals[j], cm, fl).Ok? && SlotFits(items[j], buf)
    decreases |items| - k
  {
    if k < |items| {
      match SetFieldValue(items[k], buf, vals[k], cm, fl)
      case Err(e) =>
        assert !(ValueText(items[k], vals[k], cm, fl).Ok? && SlotFits(items[k], buf));
      case Ok(next) =>
        FillFieldsOk(items, next, vals, cm, fl, k + 1);
        FillStep(items, buf, next, vals, cm, fl, k);
    }
  }

  /** The error that stops the loop names the first field that cannot be
      set, with that field's own error. */
  lemma {:induction false} FillFieldsFailure(items: seq<Field>, buf: seq<byte>, vals: seq<Value>, cm: Option<Charmap>,
                                             fl: Floats, k: nat)
    requires |vals| == |items| && k <= |items|
    ensures FillFields(items, buf, vals, cm, fl, k).err.Some? ==>
      exists j :: FirstFailure(items, buf, vals, cm, fl, k, j, FillFields(items, buf, vals, cm, fl, k).err.value)
    decreases |items| - k
  {
    if k < |items| {
      match SetFieldValue(items[k], buf, vals[k], cm, fl)
      case Err(e) =>
        assert FirstFailure(items, buf, vals, cm, fl, k, k, FieldFailure(items[k], e));
      case Ok(next) =>
        var r := FillFields(items, next, vals, cm, fl, k + 1);
        FillFieldsFailure(items, next, vals, cm, fl, k + 1);
        if r.err.Some? {
          var j :| FirstFailure(items, next, vals, cm, fl, k + 1, j, r.err.value);
          FirstFailureStep(items, buf, next, vals, cm, fl, k, j, r.err.value);
        }
    }
  }

  /** Field `j` is the first from `k` on that cannot be set in `buf`, and
      `e` is the record-level error it gives: the field and its own error. */
  predicate FirstFailure(items: seq<Field>, buf: seq<byte>, vals: seq<Value>, cm: Option<Charmap>, fl: Floats,
                         k: nat, j: int, e: Error)
    requires |vals| == |items|
  {
    k <= j < |items|
    && (forall i | k <= i < j :: ValueText(items[i], vals[i], cm, fl).Ok? && SlotFits(items[i], buf))
    && SetFieldValue(items[j], buf, vals[j], cm, fl).Err?
    && e == FieldFailure(items[j], SetFieldValue(items[j], buf, vals[j], cm, fl).error)
  }

  /** A first failure after a field that was set is the first failure from
      that field on; the buffer it was found in has the same length. */
  lemma FirstFailureStep(items: seq<Field>, buf: seq<byte>, next: seq<byte>, vals: seq<Value>, cm: Option<Charmap>,
                         fl: Floats, k: nat, j: int, e: Error)
    requires |vals| == |items| && k < |items| && |next| == |buf|
    requires ValueText(items[k], vals[k], cm, fl).Ok? && SlotFits(items[k], buf)
    requires FirstFailure(items, next, vals, cm, fl, k + 1, j, e)
    ensures FirstFailure(items, buf, vals, cm, fl, k, j, e)
  {
    var g := SetFieldValue(items[j], next, vals[j], cm, fl);
    assert g.Err? && SetFieldValue(items[j], buf, vals[j], cm, fl) == Err(g.error);
  }

  /** One field set: the rest of the fields fit the new buffer as they fit
      the old one. */
  lemma FillStep(items: seq<Field>, buf: seq<byte>, next: seq<byte>, vals: seq<Value>, cm: Option<Charmap>,
                 fl: Floats, k: nat)
    requires |vals| == |items| && k < |items| && |next| == |buf|
    requires ValueText(items[k], vals[k], cm, fl).Ok? && SlotFits(items[k], buf)
    ensures (forall j | k <= j < |items| :: ValueText(items[j], vals[j], cm, fl).Ok? && SlotFits(items[j], buf))
      <==> (forall j | k + 1 <= j < |items| :: ValueText(items[j], vals[j], cm, fl).Ok? && SlotFits(items[j], next))
  {
  }

  /** The slots are in order and do not overlap. */
  predicate Disjoint(items: seq<Field>)
  {
    forall i, j | 0 <= i < j < |items| :: items[i].offset + items[i].len <= items[j].offset
  }

  /** Setting later fields keeps what an earlier, disjoint slot holds. */
  lemma {:induction false} FillKeeps(items: seq<Field>, buf: seq<byte>, vals: seq<Value>, cm: Option<Charmap>,
                                     fl: Floats, k: nat, f: Field, s: seq<byte>)
    requires |vals| == |items| && k <= |items|
    requires Written(f, buf, s)
    requires forall j | k <= j < |items| :: f.offset + f.len <= items[j].offset
    ensures Written(f, FillFields(items, buf, vals, cm, fl, k).buf, s)
    decreases |items| - k
  {
    if k < |items| {
      var r := SetFieldValue(items[k], buf, vals[k], cm, fl);
      if r.Ok? {
        var next := r.value;
        forall i | 0 <= i < f.len && i < |s|
          ensures next[f.offset + i] == s[i]
        {
          assert next[..items[k].offset] == buf[..items[k].offset];
          assert next[f.offset + i] == next[..items[k].offset][f.offset + i];
        }
        FillKeeps(items, next, vals, cm, fl, k + 1, f, s);
      }
    }
  }

  /** When no field fails, the slot of every field `j` from `k` on holds
      that field's text `s`. */
  lemma {:induction false} FillWritesAt(items: seq<Field>, buf: seq<byte>, vals: seq<Value>, cm: Option<Charmap>,
                                        fl: Floats, k: nat, j: nat, s: seq<byte>)
    requires |vals| == |items| && k <= j < |items| && Disjoint(items)
    requires FillFields(items, buf, vals, cm, fl, k).err.None?
    requires ValueText(items[j], vals[j], cm, fl) == Ok(s)
    ensures Written(items[j], FillFields(items, buf, vals, cm, fl, k).buf, s)
    decreases j - k
  {
    var r := SetFieldValue(items[k], buf, vals[k], cm, fl);
    if r.Ok? {
      if j == k {
        assert forall i | k + 1 <= i < |items| :: items[k].offset + items[k].len <= items[i].offset;
        FillKeeps(items, r.value, vals, cm, fl, k + 1, items[k], s);
      } else {
        FillWritesAt(items, r.value, vals, cm, fl, k + 1, j, s);
      }
    }
  }

  /** `Write` / `writeRecord`: a record of the wrong length is refused; a
      failing field leaves the record unwritten (the buffer keeps the fields
      set before it); otherwise the buffer is queued and the count advances.
      Errors carry the number the record would have had. */
  function Write(w: Writer, record: seq<Value>, fl: Floats): (r: (Writer, Option<Error>))
    ensures |record| != |w.items| ==> r == (w, Some(RecordFailure(Inc32(w.recCount), ArityMismatch)))
    ensures r.1.Some? ==> r.0 == w.(buf := r.0.buf) && |r.0.buf| == |w.buf|
    ensures r.1.None? ==>
      |record| == |w.items|
      && r.0 == w.(buf := r.0.buf, pending := w.pending + r.0.buf, recCount := Inc32(w.recCount))
      && r.0.buf == FillFields(w.items, w.buf, record, w.encoder, fl, 0).buf
    ensures |record| == |w.items| ==>
      (r.1.None? <==> FillFields(w.items, w.buf, record, w.encoder, fl, 0).err.None?)
    ensures |record| == |w.items| && r.1.Some? ==>
      r.1.value == RecordFailure(Inc32(w.recCount), FillFields(w.items, w.buf, record, w.encoder, fl, 0).err.value)
  {
    var recNo := Inc32(w.recCount);
    if |record| != |w.items| then (w, Some(RecordFailure(recNo, ArityMismatch)))
    else
      var fill := FillFields(w.items, w.buf, record, w.encoder, fl, 0);
      if fill.err.Some? then (w.(buf := fill.buf), Some(RecordFailure(recNo, fill.err.value)))
      else (w.(buf := fill.buf, pending := w.pending + fill.buf, recCount := recNo), None)
  }

  /** A record that cannot be written is reported with the number it would
      have had and the first field that could not be set. */
  lemma WriteFailureNamesField(w: Writer, record: seq<Value>, fl: Floats)
    requires |record| == |w.items| && Write(w, record, fl).1.Some?
    ensures exists j, e ::
              FirstFailure(w.items, w.buf, record, w.encoder, fl, 0, j, e)
              && Write(w, record, fl).1 == Some(RecordFailure(Inc32(w.recCount), e))
  {
    FillFieldsFailure(w.items, w.buf, record, w.encoder, fl, 0);
  }

  /** A sequence of `Write` calls, stopping at the first error. */
  function WriteAll(w: Writer, records: seq<seq<Value>>, fl: Floats): (r: (Writer, Option<Error>))
    ensures r.1.None? ==>
      && r.0 == w.(buf := r.0.buf, pending := r.0.pending, recCount := r.0.recCount)
      && |r.0.buf| == |w.buf|
    decreases |records|
  {
    if |records| == 0 then (w, None)
    else
      var (next, err) := Write(w, records[0], fl);
      if err.Some? then (next, err) else WriteAll(next, records[1..], fl)
  }

  /** A successful run of writes only appends to the queued bytes, and
      counts one record per write while the counter does not wrap. */
  lemma {:induction false} WriteAllAppends(w: Writer, records: seq<seq<Value>>, fl: Floats)
    ensures WriteAll(w, records, fl).1.None? ==>
      && |WriteAll(w, records, fl).0.pending| >= |w.pending|
      && WriteAll(w, records, fl).0.pending[..|w.pending|] == w.pending
    ensures WriteAll(w, records, fl).1.None? && w.recCount + |records| < 0x1_0000_0000 ==>
      WriteAll(w, records, fl).0.recCount == w.recCount + |records|
    decreases |records|
  {
    if |records| == 0 {
      assert WriteAll(w, records, fl) == (w, None);
      assert w.pending[..|w.pending|] == w.pending;
    } else {
      var step := Write(w, records[0], fl);
      if step.1.None? {
        var next := step.0;
        WriteAllAppends(next, records[1..], fl);
        WriteAllStep(w, records, fl);
        var r := WriteAll(next, records[1..], fl);
        if r.1.None? {
          assert r.0.pending[..|w.pending|] == r.0.pending[..|next.pending|][..|w.pending|];
        }
      }
    }
  }

  /** After a successful `Write`, the rest of the records go to the updated writer. */
  lemma WriteAllStep(w: Writer, records: seq<seq<Value>>, fl: Floats)
    requires |records| > 0 && Write(w, records[0], fl).1.None?
    ensures WriteAll(w, records, fl) == WriteAll(Write(w, records[0], fl).0, records[1..], fl)
  {
  }

  /** `Flush`: the end-of-file byte follows the queued bytes; then the
      stream is rewound and the header rewritten with the record count,
      which leaves the position just after the header. */
  function Flush(w: Writer): (r: Writer)
    ensures r.header == w.header.(recCount := w.recCount)
    ensures r.pending == [] && r.sink.pos == HEADER_SIZE
    ensures r == w.(header := r.header, sink := r.sink, pending := [])
    ensures |r.sink.data| >= HEADER_SIZE && r.sink.data[..HEADER_SIZE] == HeaderBytes(r.header)
    ensures |r.sink.data| >= w.sink.pos + |w.pending| + 1
    ensures w.sink.pos >= HEADER_SIZE ==>
      r.sink.data[w.sink.pos..w.sink.pos + |w.pending| + 1] == w.pending + [FILE_END]
    ensures w.sink.data == [] && |w.pending| >= HEADER_SIZE ==>
      r.sink.data == HeaderBytes(r.header) + w.pending[HEADER_SIZE..] + [FILE_END]
  {
    var first := WriteAt(w.sink.data, w.sink.pos, w.pending + [FILE_END]);
    var h := w.header.(recCount := w.recCount);
    var data := WriteAt(first, 0, HeaderBytes(h));
    assert w.sink.pos >= HEADER_SIZE ==>
      data[w.sink.pos..w.sink.pos + |w.pending| + 1] == first[w.sink.pos..w.sink.pos + |w.pending| + 1] by {
      if w.sink.pos >= HEADER_SIZE {
        WriteAtBeyond(first, 0, HeaderBytes(h), w.sink.pos, w.sink.pos + |w.pending| + 1);
      }
    }
    assert w.sink.data == [] && |w.pending| >= HEADER_SIZE ==>
      first == w.pending + [FILE_END] && data == HeaderBytes(h) + first[HEADER_SIZE..] by {
      if w.sink.data == [] && |w.pending| >= HEADER_SIZE {
        assert first == w.pending + [FILE_END];
        WriteAtFront(first, HeaderBytes(h));
      }
    }
    w.(header := h, sink := Sink(data, HEADER_SIZE), pending := [])
  }
}
