/** A field descriptor: the validated constructors, the 11-byte name, the
    32-byte on-disk layout, and the per-type conversion between a typed value
    and the field's fixed-width slot in a record buffer. */
module FieldDesc {
  import opened Bytes
  import opened Wrappers
  import opened StrUtil
  import opened Strconv
  import opened Dates
  import opened CodePages

  const MAX_NAME_LEN: nat := 10
  const MAX_CHARACTER_LEN: nat := 254
  const MAX_NUMERIC_LEN: nat := 19

  /** The NUL-padded name array of a descriptor. */
  type NameBytes = s: seq<byte> | |s| == 11 witness [0, 0, 0, 0, 0, 0, 0, 0, 0, 0, 0]
  /** The reserved tail of a descriptor. */
  type FillerBytes = s: seq<byte> | |s| == 14 witness [0, 0, 0, 0, 0, 0, 0, 0, 0, 0, 0, 0, 0, 0]

  /** One field descriptor. `offset` is the field's position in the record
      buffer; it lives only in memory (the file holds 0 there). */
  datatype Field = Field(name: NameBytes, typ: byte, offset: uint32, len: byte, dec: byte, filler: FillerBytes)

  /** A zeroed descriptor, Go's `&field{}`. */
  const BLANK: Field := Field(Zeros(11), 0, 0, 0, 0, Zeros(14))

  /** A typed field value: Go's `interface{}` narrowed to the kinds the codec
      reads and writes. */
  datatype Value = Chr(s: seq<byte>) | Log(b: bool) | Dat(d: CivilDate) | Int(i: int64) | Flt(x: Float)

  // ---------------------------------------------------------------- names

  /** `bytes.IndexByte`: the first position of `b`, or -1. */
  function IndexByte(s: seq<byte>, b: byte): (i: int)
    ensures -1 <= i < |s|
    ensures i >= 0 ==> s[i] == b && forall k | 0 <= k < i :: s[k] != b
    ensures i == -1 <==> forall k | 0 <= k < |s| :: s[k] != b
  {
    if |s| == 0 then -1
    else if s[0] == b then 0
    else
      var j := IndexByte(s[1..], b);
      if j < 0 then -1 else j + 1
  }

  /** `name()`: the name bytes up to the first NUL. Without a NUL Go slices
      with -1 and panics. */
  function Name(f: Field): (r: Result<seq<byte>>)
    ensures r.Err? <==> forall k | 0 <= k < 11 :: f.name[k] != 0
    ensures r.Err? ==> r.error == OutOfRange
    ensures r.Ok? ==> r.value < f.name && f.name[|r.value|] == 0
    ensures r.Ok? ==> forall k | 0 <= k < |r.value| :: r.value[k] != 0
  {
    var i := IndexByte(f.name, 0);
    if i < 0 then Err(OutOfRange) else Ok(f.name[..i])
  }

  /** The error `field %q: ...` about a field. A run-time panic (modelled
      as `OutOfRange`) is never wrapped, and building the message panics
      when the name has no NUL terminator. */
  function FieldFailure(f: Field, e: Error): (r: Error)
    ensures e == OutOfRange || Name(f).Err? <==> r == OutOfRange
    ensures r != OutOfRange ==> r == FieldError(Name(f).value, e)
  {
    if e == OutOfRange then OutOfRange
    else match Name(f)
      case Ok(name) => FieldError(name, e)
      case Err(_) => OutOfRange
  }

  /** The error `record %d: ...`; a panic is passed through unwrapped. */
  function RecordFailure(recNo: uint32, e: Error): (r: Error)
    ensures r == OutOfRange <==> e == OutOfRange
    ensures r != OutOfRange ==> r == RecordError(recNo, e)
  {
    if e == OutOfRange then OutOfRange else RecordError(recNo, e)
  }

  /** `setName`: trims and upper-cases the name, rejects an empty or
      over-long result, and copies it over the start of the name array. */
  function SetName(f: Field, name: seq<byte>): (r: Result<Field>)
    ensures var n := NormalizeName(name);
      && (|n| == 0 ==> r == Err(EmptyName))
      && (|n| > MAX_NAME_LEN ==> r == Err(NameTooLong(n)))
      && (r.Ok? <==> 0 < |n| <= MAX_NAME_LEN)
      && (r.Ok? ==> r.value == f.(name := r.value.name)
                    && r.value.name[..|n|] == n && r.value.name[|n|..] == f.name[|n|..])
  {
    var n := NormalizeName(name);
    if |n| == 0 then Err(EmptyName)
    else if |n| > MAX_NAME_LEN then Err(NameTooLong(n))
    else Ok(f.(name := CopyInto(f.name, 0, 11, n)))
  }

  /** On a fresh descriptor, the stored name reads back as the normalised
      name, provided it holds no NUL byte (a NUL would end it early). */
  lemma NameOfSetName(name: seq<byte>)
    requires SetName(BLANK, name).Ok?
    requires forall k | 0 <= k < |NormalizeName(name)| :: NormalizeName(name)[k] != 0
    ensures Name(SetName(BLANK, name).value) == Ok(NormalizeName(name))
  {
    var n := NormalizeName(name);
    var g := SetName(BLANK, name).value;
    assert g.name[|n|] == 0 by {
      assert g.name[|n|..] == BLANK.name[|n|..];
      assert g.name[|n|] == g.name[|n|..][0];
    }
    NameOfTerminated(g, n);
  }

  /** A name field holding `n` and then a NUL reads as `n`. */
  lemma NameOfTerminated(g: Field, n: seq<byte>)
    requires |n| < 11 && g.name[..|n|] == n && g.name[|n|] == 0
    requires forall k | 0 <= k < |n| :: n[k] != 0
    ensures Name(g) == Ok(n)
  {
    assert forall k | 0 <= k < |n| :: g.name[k] == n[k];
  }

  /** Setting a name that is already stored leaves the descriptor as it is. */
  lemma SetNameOfName(f: Field)
    requires Name(f).Ok? && 0 < |Name(f).value| && NormalizeName(Name(f).value) == Name(f).value
    ensures SetName(f, Name(f).value) == Ok(f)
  {
    var n := Name(f).value;
    var g := SetName(f, n).value;
    assert g.name[..|n|] == f.name[..|n|];
    assert g.name == g.name[..|n|] + g.name[|n|..];
    assert f.name == f.name[..|n|] + f.name[|n|..];
  }

  // ---------------------------------------------------------- constructors

  /** The type, length and decimal count a constructor can give a field. */
  predicate ValidShape(typ: byte, len: int, dec: int)
  {
    if typ == CHAR_C then 1 <= len <= MAX_CHARACTER_LEN && dec == 0
    else if typ == CHAR_L then len == 1 && dec == 0
    else if typ == CHAR_D then len == 8 && dec == 0
    else if typ == CHAR_N then
      1 <= len <= MAX_NUMERIC_LEN && dec >= 0 && (len <= 2 ==> dec == 0) && (len > 2 ==> dec <= len - 2)
    else false
  }

  /** A descriptor the constructors can produce: a readable name and a
      valid shape. (A name that starts with a NUL byte reads back empty.) */
  predicate Valid(f: Field)
  {
    Name(f).Ok? && ValidShape(f.typ, f.len, f.dec)
  }

  /** `newLogicalField`. */
  function NewLogicalField(name: seq<byte>): (r: Result<Field>)
    ensures r.Ok? <==> SetName(BLANK, name).Ok?
    ensures r.Err? ==> r.error == SetName(BLANK, name).error
    ensures r.Ok? ==> r.value.typ == CHAR_L && r.value.len == 1 && r.value.dec == 0 && r.value.offset == 0
  {
    var f :- SetName(BLANK, name);
    Ok(f.(typ := CHAR_L, len := 1))
  }

  /** `newDateField`. */
  function NewDateField(name: seq<byte>): (r: Result<Field>)
    ensures r.Ok? <==> SetName(BLANK, name).Ok?
    ensures r.Err? ==> r.error == SetName(BLANK, name).error
    ensures r.Ok? ==> r.value.typ == CHAR_D && r.value.len == 8 && r.value.dec == 0 && r.value.offset == 0
  {
    var f :- SetName(BLANK, name);
    Ok(f.(typ := CHAR_D, len := 8))
  }

  /** `newCharacterField`: the length is checked before the name. */
  function NewCharacterField(name: seq<byte>, length: int): (r: Result<Field>)
    ensures !(0 < length <= MAX_CHARACTER_LEN) ==> r == Err(InvalidLength(length))
    ensures 0 < length <= MAX_CHARACTER_LEN ==> (r.Ok? <==> SetName(BLANK, name).Ok?)
    ensures r.Ok? ==> r.value.typ == CHAR_C && r.value.len == length && r.value.dec == 0 && r.value.offset == 0
  {
    if length <= 0 || length > MAX_CHARACTER_LEN then Err(InvalidLength(length))
    else
      var f :- SetName(BLANK, name);
      Ok(f.(typ := CHAR_C, len := length))
  }

  /** `newNumericField`: length, then decimals, then the name. */
  function NewNumericField(name: seq<byte>, length: int, dec: int): (r: Result<Field>)
    ensures !(0 < length <= MAX_NUMERIC_LEN) ==> r == Err(InvalidLength(length))
    ensures 0 < length <= MAX_NUMERIC_LEN && !ValidShape(CHAR_N, length, dec) ==> r == Err(InvalidDec(dec))
    ensures ValidShape(CHAR_N, length, dec) ==> (r.Ok? <==> SetName(BLANK, name).Ok?)
    ensures r.Ok? ==> r.value.typ == CHAR_N && r.value.len == length && r.value.dec == dec && r.value.offset == 0
  {
    if length <= 0 || length > MAX_NUMERIC_LEN then Err(InvalidLength(length))
    else if dec < 0 then Err(InvalidDec(dec))
    else if length <= 2 && dec > 0 then Err(InvalidDec(dec))
    else if length > 2 && dec > length - 2 then Err(InvalidDec(dec))
    else
      var f :- SetName(BLANK, name);
      Ok(f.(typ := CHAR_N, len := length, dec := dec))
  }

  /** A name accepted by `SetName` on a fresh descriptor can be read back. */
  lemma SetNameReadable(name: seq<byte>)
    requires SetName(BLANK, name).Ok?
    ensures Name(SetName(BLANK, name).value).Ok?
  {
    var g := SetName(BLANK, name).value;
    assert g.name[|NormalizeName(name)|] == 0;
  }

  /** Every descriptor the constructors return is valid. */
  lemma ConstructorsValid(name: seq<byte>, length: int, dec: int)
    ensures NewLogicalField(name).Ok? ==> Valid(NewLogicalField(name).value)
    ensures NewDateField(name).Ok? ==> Valid(NewDateField(name).value)
    ensures NewCharacterField(name, length).Ok? ==> Valid(NewCharacterField(name, length).value)
    ensures NewNumericField(name, length, dec).Ok? ==> Valid(NewNumericField(name, length, dec).value)
  {
    if SetName(BLANK, name).Ok? {
      SetNameReadable(name);
    }
  }

  // ---------------------------------------------------- the 32-byte record

  /** `write`: name, type, a zero offset, length, decimals, filler. */
  function Encode(f: Field): (r: seq<byte>)
    ensures |r| == FIELD_SIZE
  {
    f.name + [f.typ] + LE32(0) + [f.len, f.dec] + f.filler
  }

  /** `read` of one descriptor's 32 bytes. */
  function Decode(b: seq<byte>): (f: Field)
    requires |b| == FIELD_SIZE
  {
    Field(b[..11], b[11], FromLE32(b[12..16]), b[16], b[17], b[18..])
  }

  /** The bytes `write` emits sit where the dBASE layout puts them. */
  lemma EncodeLayout(f: Field)
    ensures var r := Encode(f);
      && r[..11] == f.name && r[11] == f.typ && r[12..16] == [0, 0, 0, 0]
      && r[16] == f.len && r[17] == f.dec && r[18..] == f.filler
  {
  }

  /** Reading what `write` emitted restores the descriptor, except that the
      in-memory offset comes back as 0. */
  lemma DecodeEncode(f: Field)
    ensures Decode(Encode(f)) == f.(offset := 0)
  {
    var r := Encode(f);
    assert r[12..16] == LE32(0);
    LE32RoundTrip(0);
  }

  /** Writing a descriptor that was read gives back the same 32 bytes when the
      stored offset was 0 (the only offset `write` ever stores). */
  lemma EncodeDecode(b: seq<byte>)
    requires |b| == FIELD_SIZE && b[12..16] == [0, 0, 0, 0]
    ensures Encode(Decode(b)) == b
  {
    assert b == b[..11] + [b[11]] + b[12..16] + [b[16], b[17]] + b[18..];
  }

  /** `binary.Read` of one descriptor from a stream: nothing left is EOF, a
      partial descriptor is an unexpected EOF. */
  function ReadDescriptor(input: seq<byte>): (r: Result<(Field, seq<byte>)>)
    ensures |input| == 0 ==> r == Err(EndOfFile)
    ensures 0 < |input| < FIELD_SIZE ==> r == Err(UnexpectedEndOfFile)
    ensures r.Ok? ==> |input| >= FIELD_SIZE && r.value.1 == input[FIELD_SIZE..]
  {
    if |input| == 0 then Err(EndOfFile)
    else if |input| < FIELD_SIZE then Err(UnexpectedEndOfFile)
    else Ok((Decode(input[..FIELD_SIZE]), input[FIELD_SIZE..]))
  }

  /** A descriptor read from bytes whose stored offset is 0 is written back
      as the same 32 bytes. */
  lemma ReadDescriptorRewrites(input: seq<byte>)
    requires ReadDescriptor(input).Ok? && input[12..16] == [0, 0, 0, 0]
    ensures Encode(ReadDescriptor(input).value.0) == input[..FIELD_SIZE]
  {
    var b := input[..FIELD_SIZE];
    assert b[12..16] == input[12..16];
    EncodeDecode(b);
  }

  /** A stream that starts with a written descriptor yields that descriptor
      (offset 0) and the rest of the stream. */
  lemma ReadEncoded(f: Field, rest: seq<byte>)
    ensures ReadDescriptor(Encode(f) + rest) == Ok((f.(offset := 0), rest))
  {
    var input := Encode(f) + rest;
    assert input[..FIELD_SIZE] == Encode(f);
    assert input[FIELD_SIZE..] == rest;
    DecodeEncode(f);
  }

  // ------------------------------------------------------------ slot access

  /** The field's slot lies inside the record buffer. */
  predicate SlotFits(f: Field, rec: seq<byte>)
  {
    f.offset + f.len <= |rec|
  }

  /** Only the field's slot may differ between `rec` and `r`. */
  predicate Frame(f: Field, rec: seq<byte>, r: seq<byte>)
  {
    SlotFits(f, rec) && |r| == |rec|
    && r[..f.offset] == rec[..f.offset]
    && r[f.offset + f.len..] == rec[f.offset + f.len..]
  }

  /** `fieldBuf`: the slot, or a slice-bounds panic. */
  function FieldBuf(f: Field, rec: seq<byte>): (r: Result<seq<byte>>)
    ensures r.Ok? <==> SlotFits(f, rec)
    ensures r.Err? ==> r.error == OutOfRange
    ensures r.Ok? ==> |r.value| == f.len
  {
    if SlotFits(f, rec) then Ok(rec[f.offset..f.offset + f.len]) else Err(OutOfRange)
  }

  /** `setFieldBuf`: `copy` of the text into the slot, at most `len` bytes;
      a text shorter than the slot leaves the slot's tail as it was. */
  function SetFieldBuf(f: Field, rec: seq<byte>, s: seq<byte>): (r: Result<seq<byte>>)
    ensures r.Ok? <==> SlotFits(f, rec)
    ensures r.Err? ==> r.error == OutOfRange
    ensures r.Ok? ==> Frame(f, rec, r.value)
    ensures r.Ok? && |s| == f.len ==> FieldBuf(f, r.value) == Ok(s)
  {
    if SlotFits(f, rec) then
      var r := CopyInto(rec, f.offset, f.len, s);
      assert |s| == f.len ==> s[..f.len] == s && r[f.offset..f.offset + f.len] == s;
      Ok(r)
    else Err(OutOfRange)
  }

  // ------------------------------------------------------- value <-> text

  /** `checkLen`. */
  function CheckLen(f: Field, s: seq<byte>): (r: Result<seq<byte>>)
    ensures r.Ok? <==> |s| <= f.len
    ensures r.Ok? ==> r.value == s
    ensures r.Err? ==> r.error == Overflow(s, f.len)
  {
    if |s| > f.len then Err(Overflow(s, f.len)) else Ok(s)
  }

  /** Text goes through the encoder only when a code page is set and the
      text is not plain ASCII. */
  function EncodeText(cm: Option<Charmap>, s: seq<byte>): Result<seq<byte>>
  {
    if cm.Some? && !IsAscii(s) then cm.value.encode(s) else Ok(s)
  }

  function DecodeText(cm: Option<Charmap>, s: seq<byte>): Result<seq<byte>>
  {
    if cm.Some? && !IsAscii(s) then cm.value.decode(s) else Ok(s)
  }

  /** The slot text of a character value: transcoded, length-checked and
      padded with spaces on the right to the field width. */
  function CharacterText(f: Field, v: seq<byte>, cm: Option<Charmap>): (r: Result<seq<byte>>)
    ensures EncodeText(cm, v).Err? ==> r == EncodeText(cm, v)
    ensures EncodeText(cm, v).Ok? && |EncodeText(cm, v).value| > f.len ==>
      r == Err(Overflow(EncodeText(cm, v).value, f.len))
    ensures r.Ok? ==> |r.value| == f.len && TrimRight(r.value) == TrimRight(EncodeText(cm, v).value)
  {
    var s :- EncodeText(cm, v);
    var s :- CheckLen(f, s);
    PadRightTrimRightAny(s, f.len);
    Ok(PadRight(s, f.len))
  }

  /** Trailing spaces are lost either way: padding on the right does not change
      what trimming on the right returns. */
  lemma PadRightTrimRightAny(s: seq<byte>, width: int)
    ensures TrimRight(PadRight(s, width)) == TrimRight(s)
  {
    var t := TrimRight(s);
    var p := PadRight(s, width);
    assert s == t + s[|t|..];
    TrimRightUnique(p, t);
  }

  /** `T` or `F`. */
  function BoolText(b: bool): (r: seq<byte>)
    ensures |r| == 1 && (IsTrue(r[0]) <==> b)
  {
    if b then [CHAR_T] else [CHAR_F]
  }

  /** The bytes a logical field reads as true. */
  predicate IsTrue(b: byte)
  {
    b == CHAR_T || b == LOWER_T || b == CHAR_Y || b == LOWER_Y
  }

  /** The text of an integer in a numeric field: decimal digits, followed by
      a point and `dec` zeros when the field has decimals, checked against
      the width and padded with spaces on the left. */
  function IntText(f: Field, v: int64): (r: Result<seq<byte>>)
    ensures r.Ok? ==> |r.value| == f.len
    ensures f.dec == 0 ==> (r.Ok? <==> |FormatInt(v)| <= f.len)
    ensures f.dec == 0 && r.Ok? ==> TrimLeft(r.value) == FormatInt(v) && TrimSpace(r.value) == FormatInt(v)
    ensures f.dec > 0 ==> (r.Ok? <==> |FormatInt(v)| + 1 + f.dec <= f.len)
    ensures f.dec > 0 && r.Ok? ==> TrimLeft(r.value) == FormatInt(v) + [DOT] + Repeat(DIGIT_0, f.dec)
  {
    var s :- CheckLen(f, IntDigits(v, f.dec));
    IntTextTrim(s, f.len);
    Ok(PadLeft(s, f.len))
  }

  /** The unpadded text of an integer with `dec` zero decimals. */
  function IntDigits(v: int64, dec: int): (r: seq<byte>)
    ensures dec <= 0 ==> r == FormatInt(v)
    ensures dec > 0 ==> r == FormatInt(v) + [DOT] + Repeat(DIGIT_0, dec) && |r| == |FormatInt(v)| + 1 + dec
    ensures |r| >= 1 && r[0] != SPACE && !IsAsciiSpace(r[0]) && !IsAsciiSpace(r[|r| - 1])
  {
    if dec > 0 then FormatInt(v) + [DOT] + Repeat(DIGIT_0, dec) else FormatInt(v)
  }

  lemma IntTextTrim(s: seq<byte>, width: int)
    requires |s| >= 1 && s[0] != SPACE && !IsAsciiSpace(s[0]) && !IsAsciiSpace(s[|s| - 1])
    ensures TrimLeft(PadLeft(s, width)) == s && TrimSpace(PadLeft(s, width)) == s
  {
    PadLeftTrimLeft(s, width);
    TrimSpacePadLeft(s, width);
  }

  /** The text of a float in a numeric field, from the given formatter. */
  function FloatText(f: Field, x: Float, fl: Floats): (r: Result<seq<byte>>)
    ensures r.Ok? <==> |fl.format(x, f.dec)| <= f.len
    ensures r.Ok? ==> |r.value| == f.len && r.value[f.len - |fl.format(x, f.dec)|..] == fl.format(x, f.dec)
  {
    var s :- CheckLen(f, fl.format(x, f.dec));
    Ok(PadLeft(s, f.len))
  }

  // ---------------------------------------------------------------- getters

  /** `stringFieldValue`: the slot without trailing spaces, decoded when it is
      not ASCII and a decoder is set. */
  function StringFieldValue(f: Field, rec: seq<byte>, cm: Option<Charmap>): (r: Result<seq<byte>>)
    ensures !SlotFits(f, rec) ==> r == Err(OutOfRange)
    ensures SlotFits(f, rec) && (cm.None? || IsAscii(TrimRight(FieldBuf(f, rec).value))) ==>
      r == Ok(TrimRight(FieldBuf(f, rec).value))
    ensures SlotFits(f, rec) && cm.Some? && !IsAscii(TrimRight(FieldBuf(f, rec).value)) ==>
      r == cm.value.decode(TrimRight(FieldBuf(f, rec).value))
  {
    var buf :- FieldBuf(f, rec);
    DecodeText(cm, TrimRight(buf))
  }

  /** `boolFieldValue`: true exactly for T, t, Y or y in the first byte; a
      zero-length slot panics on `buf[0]`. */
  function BoolFieldValue(f: Field, rec: seq<byte>): (r: Result<bool>)
    ensures r.Ok? <==> SlotFits(f, rec) && f.len > 0
    ensures r.Ok? ==> (r.value <==> IsTrue(rec[f.offset]))
  {
    var buf :- FieldBuf(f, rec);
    if |buf| == 0 then Err(OutOfRange) else Ok(IsTrue(buf[0]))
  }

  /** `dateFieldValue`: an all-space slot is the zero date; anything else
      must parse as YYYYMMDD. */
  function DateFieldValue(f: Field, rec: seq<byte>): (r: Result<CivilDate>)
    ensures !SlotFits(f, rec) ==> r == Err(OutOfRange)
    ensures SlotFits(f, rec) && IsEmpty(FieldBuf(f, rec).value) ==> r == Ok(ZERO_DATE)
    ensures SlotFits(f, rec) && !IsEmpty(FieldBuf(f, rec).value) ==> r == Parse(FieldBuf(f, rec).value)
    ensures r.Ok? ==> SlotFits(f, rec)
    ensures r.Ok? && r.value != ZERO_DATE ==> Format(r.value) == rec[f.offset..f.offset + f.len]
  {
    var buf :- FieldBuf(f, rec);
    if IsEmpty(buf) then Ok(ZERO_DATE)
    else
      var d := Parse(buf);
      if d.Ok? then FormatParse(buf); d else d
  }

  /** `intFieldValue`: refused for a field with decimals; leading spaces are
      skipped and an all-space slot reads as 0. */
  function IntFieldValue(f: Field, rec: seq<byte>): (r: Result<int64>)
    ensures f.dec != 0 ==> r == Err(DecNotZero)
    ensures f.dec == 0 && !SlotFits(f, rec) ==> r == Err(OutOfRange)
    ensures f.dec == 0 && SlotFits(f, rec) && IsEmpty(FieldBuf(f, rec).value) ==> r == Ok(0)
    ensures f.dec == 0 && SlotFits(f, rec) && !IsEmpty(FieldBuf(f, rec).value) ==>
      r == ParseInt(TrimLeft(FieldBuf(f, rec).value))
  {
    if f.dec != 0 then Err(DecNotZero)
    else
      var buf :- FieldBuf(f, rec);
      var s := TrimLeft(buf);
      if s == [] then ZeroParses(); ParseInt([DIGIT_0]) else TrimEmptyIff(buf); ParseInt(s)
  }

  lemma ZeroParses()
    ensures ParseInt([DIGIT_0]) == Ok(0)
  {
    assert [DIGIT_0] == FormatInt(0);
    ParseFormatInt(0);
  }

  /** `floatFieldValue`, with the parser given. */
  function FloatFieldValue(f: Field, rec: seq<byte>, fl: Floats): (r: Result<Float>)
    ensures !SlotFits(f, rec) ==> r == Err(OutOfRange)
    ensures SlotFits(f, rec) && IsEmpty(FieldBuf(f, rec).value) ==> r == fl.parse([DIGIT_0])
    ensures SlotFits(f, rec) && !IsEmpty(FieldBuf(f, rec).value) ==> r == fl.parse(TrimLeft(FieldBuf(f, rec).value))
  {
    var buf :- FieldBuf(f, rec);
    var s := TrimLeft(buf);
    TrimEmptyIff(buf);
    fl.parse(if s == [] then [DIGIT_0] else s)
  }

  // ---------------------------------------------------------------- setters

  /** `setStringFieldValue`. */
  function SetStringFieldValue(f: Field, rec: seq<byte>, v: seq<byte>, cm: Option<Charmap>): (r: Result<seq<byte>>)
    ensures CharacterText(f, v, cm).Err? ==> r == CharacterText(f, v, cm)
    ensures CharacterText(f, v, cm).Ok? ==> (r.Ok? <==> SlotFits(f, rec))
    ensures r.Ok? ==> Frame(f, rec, r.value) && FieldBuf(f, r.value) == CharacterText(f, v, cm)
  {
    var s :- CharacterText(f, v, cm);
    SetFieldBuf(f, rec, s)
  }

  /** Plain ASCII text is stored as it is, whatever encoder is set. */
  lemma SetStringAsciiIgnoresEncoder(f: Field, rec: seq<byte>, v: seq<byte>, cm: Option<Charmap>)
    requires IsAscii(v)
    ensures SetStringFieldValue(f, rec, v, cm) == SetStringFieldValue(f, rec, v, None)
  {
  }

  /** `setBoolFieldValue`: one byte, `T` or `F`, at the start of the slot. */
  function SetBoolFieldValue(f: Field, rec: seq<byte>, v: bool): (r: Result<seq<byte>>)
    ensures r.Ok? <==> SlotFits(f, rec)
    ensures r.Ok? ==> Frame(f, rec, r.value)
    ensures r.Ok? && f.len > 0 ==> r.value[f.offset] == BoolText(v)[0]
    ensures r.Ok? && f.len > 0 ==> r.value[f.offset + 1..] == rec[f.offset + 1..]
  {
    SetFieldBuf(f, rec, BoolText(v))
  }

  /** `setDateFieldValue`: the date's YYYYMMDD text, with no blank case. */
  function SetDateFieldValue(f: Field, rec: seq<byte>, v: CivilDate): (r: Result<seq<byte>>)
    ensures r.Ok? <==> SlotFits(f, rec)
    ensures r.Ok? ==> Frame(f, rec, r.value)
    ensures r.Ok? && f.len == 8 && 0 <= v.year <= 9999 ==> FieldBuf(f, r.value) == Ok(Format(v))
  {
    SetFieldBuf(f, rec, Format(v))
  }

  /** `setIntFieldValue`. */
  function SetIntFieldValue(f: Field, rec: seq<byte>, v: int64): (r: Result<seq<byte>>)
    ensures IntText(f, v).Err? ==> r == IntText(f, v)
    ensures IntText(f, v).Ok? ==> (r.Ok? <==> SlotFits(f, rec))
    ensures r.Ok? ==> Frame(f, rec, r.value) && FieldBuf(f, r.value) == IntText(f, v)
  {
    var s :- IntText(f, v);
    SetFieldBuf(f, rec, s)
  }

  /** `setFloatFieldValue`, with the formatter given. */
  function SetFloatFieldValue(f: Field, rec: seq<byte>, v: Float, fl: Floats): (r: Result<seq<byte>>)
    ensures FloatText(f, v, fl).Err? ==> r == FloatText(f, v, fl)
    ensures FloatText(f, v, fl).Ok? ==> (r.Ok? <==> SlotFits(f, rec))
    ensures r.Ok? ==> Frame(f, rec, r.value) && FieldBuf(f, r.value) == FloatText(f, v, fl)
  {
    var s :- FloatText(f, v, fl);
    SetFieldBuf(f, rec, s)
  }

  // ------------------------------------------------------------- round trips

  /** A character value is stored faithfully when its (transcoded) text fits,
      does not end in a space, and decodes back to it. */
  predicate Stores(cm: Option<Charmap>, v: seq<byte>, width: int)
  {
    var e := EncodeText(cm, v);
    e.Ok? && |e.value| <= width && !EndsWithSpace(e.value) && DecodeText(cm, e.value) == Ok(v)
  }

  /** Without a code page, exactly the texts that fit and do not end in a
      space are stored faithfully. */
  lemma StoresPlain(v: seq<byte>, width: int)
    ensures Stores(None, v, width) <==> |v| <= width && !EndsWithSpace(v)
  {
  }

  lemma StringRoundTrip(f: Field, rec: seq<byte>, v: seq<byte>, cm: Option<Charmap>)
    requires SlotFits(f, rec) && Stores(cm, v, f.len)
    ensures SetStringFieldValue(f, rec, v, cm).Ok?
    ensures StringFieldValue(f, SetStringFieldValue(f, rec, v, cm).value, cm) == Ok(v)
  {
    var e := EncodeText(cm, v).value;
    PadRightTrimRight(e, f.len);
  }

  /** A string wider than its field is refused. */
  lemma StringOverflow(f: Field, rec: seq<byte>, v: seq<byte>)
    requires |v| > f.len
    ensures SetStringFieldValue(f, rec, v, None) == Err(Overflow(v, f.len))
  {
  }

  lemma BoolRoundTrip(f: Field, rec: seq<byte>, v: bool)
    requires SlotFits(f, rec) && f.len > 0
    ensures SetBoolFieldValue(f, rec, v).Ok?
    ensures BoolFieldValue(f, SetBoolFieldValue(f, rec, v).value) == Ok(v)
  {
  }

  lemma DateRoundTrip(f: Field, rec: seq<byte>, v: CivilDate)
    requires SlotFits(f, rec) && f.len == 8 && 0 <= v.year <= 9999
    ensures SetDateFieldValue(f, rec, v).Ok?
    ensures DateFieldValue(f, SetDateFieldValue(f, rec, v).value) == Ok(v)
  {
    var s := Format(v);
    assert s[0] != SPACE;
    ParseFormat(v);
  }

  lemma IntRoundTrip(f: Field, rec: seq<byte>, v: int64)
    requires SlotFits(f, rec) && f.dec == 0 && |FormatInt(v)| <= f.len
    ensures SetIntFieldValue(f, rec, v).Ok?
    ensures IntFieldValue(f, SetIntFieldValue(f, rec, v).value) == Ok(v)
  {
    var t := IntText(f, v).value;
    var r := SetIntFieldValue(f, rec, v);
    IntReadsText(f, r.value, t, v);
  }

  /** A slot whose text trims to the decimal form of `v` reads as `v`. */
  lemma IntReadsText(f: Field, rec: seq<byte>, t: seq<byte>, v: int64)
    requires f.dec == 0 && FieldBuf(f, rec) == Ok(t) && TrimLeft(t) == FormatInt(v)
    ensures IntFieldValue(f, rec) == Ok(v)
  {
    ParseFormatInt(v);
  }

  /** An all-space slot reads as the empty string, false, the zero date and 0. */
  lemma BlankSlot(f: Field, rec: seq<byte>)
    requires SlotFits(f, rec) && f.len > 0
    requires forall k | f.offset <= k < f.offset + f.len :: rec[k] == SPACE
    ensures StringFieldValue(f, rec, None) == Ok([])
    ensures BoolFieldValue(f, rec) == Ok(false)
    ensures DateFieldValue(f, rec) == Ok(ZERO_DATE)
    ensures f.dec == 0 ==> IntFieldValue(f, rec) == Ok(0)
  {
    var buf := FieldBuf(f, rec).value;
    assert forall k | 0 <= k < |buf| :: buf[k] == SPACE by {
      forall k | 0 <= k < |buf| ensures buf[k] == SPACE {
        assert buf[k] == rec[f.offset + k];
      }
    }
    TrimEmptyIff(buf);
  }
}
