/** The ordered collection of field descriptors a file is created with: a
    sticky construction error, the cumulative layout of the fields in the
    record buffer (byte 0 is the deletion mark), the record width, and the
    descriptor table as it is written to and read from a stream. */
module FieldList {
  import opened Bytes
  import opened Wrappers
  import opened StrUtil
  import opened FieldDesc

  /** `Fields`: the descriptors added so far and the first error met. */
  datatype Fields = Fields(items: seq<Field>, err: Option<Error>)

  /** `NewFields()`. */
  const NEW_FIELDS: Fields := Fields([], None)

  /** What `Get` reports about one field. */
  datatype FieldInfo = FieldInfo(name: seq<byte>, typ: seq<byte>, length: int, dec: int)

  /** `Count`. */
  function Count(fs: Fields): nat
  {
    |fs.items|
  }

  /** `Add`, given the outcome of the field constructor it calls: once an
      error is recorded every later call does nothing. */
  function Add(fs: Fields, made: Result<Field>): (r: Fields)
    ensures fs.err.Some? ==> r == fs
    ensures fs.err.None? && made.Ok? ==> r == Fields(fs.items + [made.value], None)
    ensures fs.err.None? && made.Err? ==> r == Fields(fs.items, Some(made.error))
  {
    if fs.err.Some? then fs
    else if made.Err? then fs.(err := Some(made.error))
    else fs.(items := fs.items + [made.value])
  }

  /** A sequence of `Add` calls. */
  function AddAll(fs: Fields, made: seq<Result<Field>>): Fields
    decreases |made|
  {
    if |made| == 0 then fs else AddAll(Add(fs, made[0]), made[1..])
  }

  /** The number of successful outcomes before the first failure. */
  function FirstErr(made: seq<Result<Field>>): (k: nat)
    ensures k <= |made|
    ensures forall i | 0 <= i < k :: made[i].Ok?
    ensures k < |made| ==> made[k].Err?
  {
    if |made| == 0 || made[0].Err? then 0 else 1 + FirstErr(made[1..])
  }

  function Values(made: seq<Result<Field>>): (r: seq<Field>)
    requires forall i | 0 <= i < |made| :: made[i].Ok?
    ensures |r| == |made| && forall i | 0 <= i < |made| :: r[i] == made[i].value
  {
    seq(|made|, i requires 0 <= i < |made| => made[i].value)
  }

  /** A run of `Add` calls keeps exactly the fields made before the first
      failure, and records that failure. */
  lemma {:induction false} AddAllKeepsPrefix(fs: Fields, made: seq<Result<Field>>)
    requires fs.err.None?
    ensures var r := AddAll(fs, made); var k := FirstErr(made);
      && r.items == fs.items + Values(made[..k])
      && r.err == (if k < |made| then Some(made[k].error) else None)
    decreases |made|
  {
    var k := FirstErr(made);
    if |made| > 0 {
      var next := Add(fs, made[0]);
      if made[0].Err? {
        AddAllSticky(next, made[1..]);
      } else {
        assert k == 1 + FirstErr(made[1..]);
        AddAllKeepsPrefix(next, made[1..]);
        assert made[1..][..k - 1] == made[1..k];
        assert Values(made[..k]) == [made[0].value] + Values(made[1..k]);
        ConcatAssoc(fs.items, [made[0].value], Values(made[1..k]));
      }
    }
  }

  /** Once an error is recorded the collection no longer changes. */
  lemma {:induction false} AddAllSticky(fs: Fields, made: seq<Result<Field>>)
    requires fs.err.Some?
    ensures AddAll(fs, made) == fs
    decreases |made|
  {
    if |made| > 0 {
      AddAllSticky(Add(fs, made[0]), made[1..]);
    }
  }

  /** `Count` after a run of `Add` calls on a new collection. */
  lemma CountAfterAdds(made: seq<Result<Field>>)
    ensures Count(AddAll(NEW_FIELDS, made)) == FirstErr(made)
  {
    AddAllKeepsPrefix(NEW_FIELDS, made);
  }

  /** Go's `string(b)` of a byte: the UTF-8 encoding of the code point `b`,
      one byte below 0x80 and two bytes from there on. */
  function TypeName(typ: byte): (r: seq<byte>)
    ensures typ < 0x80 ==> r == [typ]
    ensures typ >= 0x80 ==>
      |r| == 2 && 0xC0 <= r[0] < 0xE0 && 0x80 <= r[1] < 0xC0 && (r[0] as int - 0xC0) * 64 + (r[1] as int - 0x80) == typ
  {
    if typ < 0x80 then [typ] else [0xC0 + typ / 64, 0x80 + typ % 64]
  }

  /** `Get`: an index outside the items is an index panic, and so is a name
      without a NUL terminator. */
  function Get(fs: Fields, i: int): (r: Result<FieldInfo>)
    ensures r.Ok? <==> 0 <= i < |fs.items| && Name(fs.items[i]).Ok?
    ensures r.Err? ==> r.error == OutOfRange
    ensures r.Ok? ==> var f := fs.items[i];
      r.value == FieldInfo(Name(f).value, TypeName(f.typ), f.len, f.dec)
  {
    if i < 0 || i >= |fs.items| then Err(OutOfRange)
    else
      var f := fs.items[i];
      var name :- Name(f);
      Ok(FieldInfo(name, TypeName(f.typ), f.len, f.dec))
  }

  /** A character field added to a collection is reported back with the
      normalised name, type `C`, its length and no decimals. */
  lemma GetAddedCharacterField(fs: Fields, name: seq<byte>, length: int)
    requires fs.err.None? && NewCharacterField(name, length).Ok?
    requires forall k | 0 <= k < |NormalizeName(name)| :: NormalizeName(name)[k] != 0
    ensures Get(Add(fs, NewCharacterField(name, length)), Count(fs))
      == Ok(FieldInfo(NormalizeName(name), [CHAR_C], length, 0))
  {
    NameOfSetName(name);
  }

  // ------------------------------------------------------------- layout

  /** The total width of the fields. */
  function SumLen(items: seq<Field>): nat
  {
    if |items| == 0 then 0 else items[0].len + SumLen(items[1..])
  }

  /** The fields with their offsets assigned from `start` on: each field
      starts where the previous one ends (the offset kept in 32 bits). */
  function Layout(items: seq<Field>, start: int): (r: seq<Field>)
    ensures |r| == |items|
    ensures forall i | 0 <= i < |items| :: r[i] == items[i].(offset := r[i].offset)
  {
    if |items| == 0 then []
    else [items[0].(offset := ToUint32(start))] + Layout(items[1..], start + items[0].len)
  }

  lemma LayoutCons(items: seq<Field>, start: int)
    requires |items| > 0
    ensures Layout(items, start) == [items[0].(offset := ToUint32(start))] + Layout(items[1..], start + items[0].len)
  {
  }

  /** The first field is placed at `start`, the others as the rest laid out
      after it. */
  lemma LayoutShift(items: seq<Field>, start: int)
    requires |items| > 0
    ensures Layout(items, start)[0] == items[0].(offset := ToUint32(start))
    ensures forall i | 0 < i < |items| :: Layout(items, start)[i] == Layout(items[1..], start + items[0].len)[i - 1]
  {
    var r := Layout(items, start);
    var tail := Layout(items[1..], start + items[0].len);
    assert r == [items[0].(offset := ToUint32(start))] + tail;
  }

  /** `calcRecSize`: the deletion mark plus every field, in 16 bits. */
  function CalcRecSize(items: seq<Field>): uint16
  {
    ToUint16(1 + SumLen(items))
  }

  /** Laid out within a 32-bit total, every field lies between `start` and
      `start` plus the total width. */
  lemma {:induction false} LayoutBounds(items: seq<Field>, start: nat)
    requires start + SumLen(items) < 0x1_0000_0000
    ensures forall i | 0 <= i < |items| ::
      start <= Layout(items, start)[i].offset
      && Layout(items, start)[i].offset + Layout(items, start)[i].len <= start + SumLen(items)
    decreases |items|
  {
    if |items| > 0 {
      var next := start + items[0].len;
      LayoutBounds(items[1..], next);
      LayoutShift(items, start);
    }
  }

  /** Laid out within a 32-bit total, the first field starts at `start`,
      each next one starts where the previous one ends, and the last one ends
      at `start` plus the total width. */
  lemma {:induction false} LayoutTiles(items: seq<Field>, start: nat)
    requires start + SumLen(items) < 0x1_0000_0000
    ensures |items| > 0 ==> Layout(items, start)[0].offset == start
    ensures forall i | 0 <= i < |items| - 1 ::
      Layout(items, start)[i + 1].offset == Layout(items, start)[i].offset + Layout(items, start)[i].len
    ensures |items| > 0 ==>
      Layout(items, start)[|items| - 1].offset + Layout(items, start)[|items| - 1].len == start + SumLen(items)
    decreases |items|
  {
    if |items| > 0 {
      var next := start + items[0].len;
      LayoutTiles(items[1..], next);
      LayoutShift(items, start);
    }
  }

  /** Laid out within a 32-bit total, two different fields never overlap. */
  lemma {:induction false} LayoutDisjoint(items: seq<Field>, start: nat)
    requires start + SumLen(items) < 0x1_0000_0000
    ensures forall i, j | 0 <= i < j < |items| ::
      Layout(items, start)[i].offset + Layout(items, start)[i].len <= Layout(items, start)[j].offset
    decreases |items|
  {
    if |items| > 0 {
      var next := start + items[0].len;
      LayoutDisjoint(items[1..], next);
      LayoutBounds(items[1..], next);
      LayoutShift(items, start);
    }
  }

  /** The record width covers the laid-out fields exactly when it did not wrap. */
  lemma RecSizeCoversLayout(items: seq<Field>)
    requires 1 + SumLen(items) < 0x1_0000
    ensures CalcRecSize(items) == 1 + SumLen(items)
    ensures forall i | 0 <= i < |items| ::
      1 <= Layout(items, 1)[i].offset && Layout(items, 1)[i].offset + Layout(items, 1)[i].len <= CalcRecSize(items)
    ensures |items| > 0 ==>
      Layout(items, 1)[|items| - 1].offset + Layout(items, 1)[|items| - 1].len == CalcRecSize(items)
  {
    ToUint16Small(1 + SumLen(items));
    LayoutBounds(items, 1);
    LayoutTiles(items, 1);
  }

  // --------------------------------------------------- descriptor table

  /** The 32-byte descriptors of the fields, in order. */
  function DescriptorBytes(items: seq<Field>): (r: seq<byte>)
    ensures |r| == FIELD_SIZE * |items|
  {
    if |items| == 0 then [] else Encode(items[0]) + DescriptorBytes(items[1..])
  }

  /** `Fields.write`: the descriptor table, and the fields with their offsets
      set (the write assigns them in place, so the collection keeps them). */
  function Write(fs: Fields): (r: (seq<byte>, Fields))
  {
    (DescriptorBytes(fs.items), fs.(items := Layout(fs.items, 1)))
  }

  /** The outcome of reading descriptors: those read, the stream after them,
      and the error that stopped the reading, if any. */
  datatype ReadOutcome = ReadOutcome(items: seq<Field>, rest: seq<byte>, err: Option<Error>)

  /** The descriptor-reading loop shared by `Fields.read` and the readers:
      `count` descriptors (none when `count <= 0`), offsets assigned
      cumulatively from `start` whatever the file holds. A stream that ends
      early is consumed to its end. */
  function ReadItems(input: seq<byte>, count: int, start: int): (o: ReadOutcome)
    ensures o.err.None? ==> |o.items| == (if count < 0 then 0 else count)
    ensures o.err.Some? ==> o.err.value in {EndOfFile, UnexpectedEndOfFile} && o.rest == []
    decreases if count < 0 then 0 else count
  {
    if count <= 0 then ReadOutcome([], input, None)
    else
      match ReadDescriptor(input)
      case Err(e) => ReadOutcome([], [], Some(e))
      case Ok((f, rest)) =>
        var o := ReadItems(rest, count - 1, start + f.len);
        var items := [f.(offset := ToUint32(start))] + o.items;
        assert items[1..] == o.items;
        o.(items := items)
  }

  /** Whatever the stream holds, the descriptors read are laid out one after
      the other from `start`. */
  lemma ReadItemsLaidOut(input: seq<byte>, count: int, start: int)
    ensures var o := ReadItems(input, count, start); o.items == Layout(o.items, start)
  {
    ReadItemsAligned(input, count, start);
    LaidOutLayout(ReadItems(input, count, start).items, start);
  }

  /** Each field starts where the previous one ends, the first at `start`. */
  predicate LaidOut(items: seq<Field>, start: int)
    decreases |items|
  {
    |items| == 0 || (items[0].offset == ToUint32(start) && LaidOut(items[1..], start + items[0].len))
  }

  lemma {:induction false} LaidOutLayout(items: seq<Field>, start: int)
    requires LaidOut(items, start)
    ensures items == Layout(items, start)
    decreases |items|
  {
    if |items| > 0 {
      LaidOutLayout(items[1..], start + items[0].len);
      LayoutPrepend(items[0], items[1..], start);
      assert items == [items[0]] + items[1..];
    }
  }

  lemma {:induction false} ReadItemsAligned(input: seq<byte>, count: int, start: int)
    ensures LaidOut(ReadItems(input, count, start).items, start)
    decreases if count < 0 then 0 else count
  {
    if count > 0 && ReadDescriptor(input).Ok? {
      var (f, rest) := ReadDescriptor(input).value;
      var tail := ReadItems(rest, count - 1, start + f.len).items;
      ReadItemsAligned(rest, count - 1, start + f.len);
      ReadItemsUnfold(input, count, start, f, rest);
      var items := [f.(offset := ToUint32(start))] + tail;
      assert items[0].offset == ToUint32(start) && items[1..] == tail;
    }
  }

  lemma ReadItemsUnfold(input: seq<byte>, count: int, start: int, f: Field, rest: seq<byte>)
    requires count > 0 && ReadDescriptor(input) == Ok((f, rest))
    ensures ReadItems(input, count, start).items == [f.(offset := ToUint32(start))] + ReadItems(rest, count - 1, start + f.len).items
  {
  }

  lemma LayoutPrepend(x: Field, tail: seq<Field>, start: int)
    requires x.offset == ToUint32(start) && tail == Layout(tail, start + x.len)
    ensures [x] + tail == Layout([x] + tail, start)
  {
    assert ([x] + tail)[1..] == tail;
  }

  /** A stream starting with a written descriptor yields it, laid out at
      `start`, ahead of whatever the rest of the stream yields. */
  lemma ReadItemsEncoded(f: Field, more: seq<byte>, count: int, start: int)
    requires count > 0
    ensures ReadItems(Encode(f) + more, count, start)
      == var o := ReadItems(more, count - 1, start + f.len); o.(items := [f.(offset := ToUint32(start))] + o.items)
  {
    ReadEncoded(f, more);
    ReadItemsStep(Encode(f) + more, f, more, count, start);
  }

  /** One descriptor read, then the rest of the count. */
  lemma ReadItemsStep(input: seq<byte>, f: Field, rest: seq<byte>, count: int, start: int)
    requires count > 0 && ReadDescriptor(input) == Ok((f.(offset := 0), rest))
    ensures ReadItems(input, count, start)
      == var o := ReadItems(rest, count - 1, start + f.len); o.(items := [f.(offset := ToUint32(start))] + o.items)
  {
    var f0 := f.(offset := 0);
    assert f0.len == f.len;
    assert f0.(offset := ToUint32(start)) == f.(offset := ToUint32(start));
  }

  /** Reading back a written descriptor table gives the fields laid out from
      `start` and leaves the stream just past the table. */
  lemma {:induction false} ReadWritten(items: seq<Field>, rest: seq<byte>, start: int)
    ensures ReadItems(DescriptorBytes(items) + rest, |items|, start)
      == ReadOutcome(Layout(items, start), rest, None)
    decreases |items|
  {
    if |items| > 0 {
      assert |items[1..]| == |items| - 1;
      ReadWritten(items[1..], rest, start + items[0].len);
      ReadWrittenStep(items, rest, start);
    } else {
      assert DescriptorBytes(items) + rest == rest;
    }
  }

  /** The step of ReadWritten: the first descriptor, then the rest. */
  lemma ReadWrittenStep(items: seq<Field>, rest: seq<byte>, start: int)
    requires |items| > 0
    requires ReadItems(DescriptorBytes(items[1..]) + rest, |items| - 1, start + items[0].len)
      == ReadOutcome(Layout(items[1..], start + items[0].len), rest, None)
    ensures ReadItems(DescriptorBytes(items) + rest, |items|, start) == ReadOutcome(Layout(items, start), rest, None)
  {
    var more := DescriptorBytes(items[1..]) + rest;
    ReadDescriptorCons(items, rest);
    ReadItemsStep(DescriptorBytes(items) + rest, items[0], more, |items|, start);
    PrependOutcome(ReadItems(DescriptorBytes(items) + rest, |items|, start),
                   ReadItems(more, |items| - 1, start + items[0].len), items, start, rest);
  }

  /** A written table starts with its first descriptor. */
  lemma ReadDescriptorCons(items: seq<Field>, rest: seq<byte>)
    requires |items| > 0
    ensures ReadDescriptor(DescriptorBytes(items) + rest) == Ok((items[0].(offset := 0), DescriptorBytes(items[1..]) + rest))
  {
    DescriptorBytesCons(items, rest);
    ReadEncoded(items[0], DescriptorBytes(items[1..]) + rest);
  }

  lemma PrependOutcome(a: ReadOutcome, o: ReadOutcome, items: seq<Field>, start: int, rest: seq<byte>)
    requires |items| > 0 && o == ReadOutcome(Layout(items[1..], start + items[0].len), rest, None)
    requires a == o.(items := [items[0].(offset := ToUint32(start))] + o.items)
    ensures a == ReadOutcome(Layout(items, start), rest, None)
  {
    LayoutCons(items, start);
  }

  lemma DescriptorBytesCons(items: seq<Field>, rest: seq<byte>)
    requires |items| > 0
    ensures DescriptorBytes(items) + rest == Encode(items[0]) + (DescriptorBytes(items[1..]) + rest)
  {
    ConcatAssoc(Encode(items[0]), DescriptorBytes(items[1..]), rest);
  }

  /** Writing then reading the table of a collection gives back the fields
      as `Fields.write` leaves them, with the same offsets. */
  lemma WriteRead(fs: Fields, rest: seq<byte>)
    ensures var (bytes, written) := Write(fs);
      ReadItems(bytes + rest, Count(fs), 1) == ReadOutcome(written.items, rest, None)
  {
    ReadWritten(fs.items, rest, 1);
  }

  /** `Fields.read`: the descriptors read are appended to those already held. */
  function Read(fs: Fields, input: seq<byte>, count: int): (r: (Fields, ReadOutcome))
    ensures r.0.items == fs.items + r.1.items && r.0.err == fs.err
    ensures r.1.items == Layout(r.1.items, 1)
  {
    var o := ReadItems(input, count, 1);
    ReadItemsLaidOut(input, count, 1);
    (fs.(items := fs.items + o.items), o)
  }
}
