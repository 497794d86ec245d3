/** The 32-byte file header: signature, date of last change, record count,
    where the records start, record width and the code-page byte, all
    little-endian. */
module FileHeader {
  import opened Bytes
  import opened Wrappers
  import opened Dates
  import opened CodePages

  const YEAR_OFFSET: int := 1900

  type Filler17 = s: seq<byte> | |s| == 17 witness [0, 0, 0, 0, 0, 0, 0, 0, 0, 0, 0, 0, 0, 0, 0, 0, 0]
  type Filler2 = s: seq<byte> | |s| == 2 witness [0, 0]

  datatype Header = Header(
    id: byte,
    modYear: byte,
    modMonth: byte,
    modDay: byte,
    recCount: uint32,
    dataOffset: uint16,
    recSize: uint16,
    filler1: Filler17,
    cp: byte,
    filler2: Filler2)

  /** A zeroed header, Go's `&header{}`. */
  const ZERO_HEADER: Header := Header(0, 0, 0, 0, 0, 0, 0, Zeros(17), 0, Zeros(2))

  // --------------------------------------------------------- modified date

  /** `setModDate`: the year is stored as `year - 1900` in one byte. */
  function SetModDate(h: Header, d: CivilDate): (r: Header)
    ensures r == h.(modYear := r.modYear, modMonth := r.modMonth, modDay := r.modDay)
  {
    h.(modYear := ToByte(d.year - YEAR_OFFSET), modMonth := d.month, modDay := d.day)
  }

  /** `modDate`, as the raw year, month and day it passes to `time.Date`. */
  function ModDate(h: Header): Date
  {
    Date(h.modYear + YEAR_OFFSET, h.modMonth, h.modDay)
  }

  /** Dates from 1900 to 2155 survive being stored in the header. */
  lemma ModDateRoundTrip(h: Header, d: CivilDate)
    requires YEAR_OFFSET <= d.year <= YEAR_OFFSET + 255
    ensures ModDate(SetModDate(h, d)) == d
  {
  }

  /** Later years wrap around: 2156 is stored as 1900. */
  lemma ModDateWraps(h: Header)
    ensures ModDate(SetModDate(h, Date(2156, 1, 1))) == Date(1900, 1, 1)
  {
  }

  /** `newHeader`, with the current date passed in. */
  function NewHeader(now: CivilDate): (h: Header)
    ensures h.id == DBF_ID && h.recCount == 0 && h.recSize == 0 && h.cp == 0 && h.dataOffset == 0
    ensures h.filler1 == Zeros(17) && h.filler2 == Zeros(2)
    ensures YEAR_OFFSET <= now.year <= YEAR_OFFSET + 255 ==> ModDate(h) == now
  {
    SetModDate(ZERO_HEADER.(id := DBF_ID), now)
  }

  // ----------------------------------------------------------- field count

  /** `fieldCount`: Go's division truncates toward zero. */
  function FieldCount(h: Header): int
  {
    GoQuo(h.dataOffset - HEADER_SIZE - 1, FIELD_SIZE)
  }

  /** `setFieldCount`: the result is truncated to 16 bits. */
  function SetFieldCount(h: Header, count: int): (r: Header)
    ensures r == h.(dataOffset := r.dataOffset)
  {
    h.(dataOffset := ToUint16(count * FIELD_SIZE + HEADER_SIZE + 1))
  }

  /** The count comes back from the data offset while the offset fits in 16 bits. */
  lemma FieldCountRoundTrip(h: Header, count: int)
    requires -1 <= count && count * FIELD_SIZE + HEADER_SIZE + 1 < 0x1_0000
    ensures SetFieldCount(h, count).dataOffset == count * FIELD_SIZE + HEADER_SIZE + 1
    ensures FieldCount(SetFieldCount(h, count)) == count
  {
    ToUint16Small(count * FIELD_SIZE + HEADER_SIZE + 1);
  }

  /** A data offset set from a count that fits gives that count back. */
  lemma FieldCountOf(h: Header, count: int)
    requires -1 <= count && count * FIELD_SIZE + HEADER_SIZE + 1 < 0x1_0000
    requires h.dataOffset == ToUint16(count * FIELD_SIZE + HEADER_SIZE + 1)
    ensures FieldCount(h) == count
  {
    ToUint16Small(count * FIELD_SIZE + HEADER_SIZE + 1);
  }

  /** The count is negative exactly for a data offset of 0 or 1, where it is
      -1; no offset yields more than 2046 fields. */
  lemma FieldCountRange(h: Header)
    ensures FieldCount(h) < 0 <==> h.dataOffset <= 1
    ensures FieldCount(h) < 0 ==> FieldCount(h) == -1
    ensures FieldCount(h) <= 2046
  {
  }

  /** A fresh header has no data offset yet, which reads as -1 fields. */
  lemma NewHeaderFieldCount(now: CivilDate)
    ensures FieldCount(NewHeader(now)) == -1
  {
  }

  /** `newHeader` with the data offset of an empty field list, so that a
      fresh header reports 0 fields; it differs from `NewHeader` in the
      data offset only. */
  function FreshHeader(now: CivilDate): (h: Header)
    ensures h == NewHeader(now).(dataOffset := h.dataOffset)
    ensures FieldCount(h) == 0
    ensures YEAR_OFFSET <= now.year <= YEAR_OFFSET + 255 ==> ModDate(h) == now
  {
    FieldCountRoundTrip(NewHeader(now), 0);
    SetFieldCount(NewHeader(now), 0)
  }

  // ------------------------------------------------------------ 32 bytes

  /** `write`: the fields in declaration order, multi-byte ones little-endian. */
  function HeaderBytes(h: Header): (r: seq<byte>)
    ensures |r| == HEADER_SIZE
  {
    [h.id, h.modYear, h.modMonth, h.modDay] + LE32(h.recCount) + LE16(h.dataOffset)
      + LE16(h.recSize) + h.filler1 + [h.cp] + h.filler2
  }

  function DecodeHeader(b: seq<byte>): Header
    requires |b| == HEADER_SIZE
  {
    Header(b[0], b[1], b[2], b[3], FromLE32(b[4..8]), FromLE16(b[8..10]), FromLE16(b[10..12]),
      b[12..29], b[29], b[30..32])
  }

  /** Where each header field sits in the 32 bytes. */
  lemma HeaderLayout(h: Header)
    ensures var b := HeaderBytes(h);
      && b[0] == h.id && b[1] == h.modYear && b[2] == h.modMonth && b[3] == h.modDay
      && FromLE32(b[4..8]) == h.recCount && FromLE16(b[8..10]) == h.dataOffset
      && FromLE16(b[10..12]) == h.recSize && b[29] == h.cp
  {
    var b := HeaderBytes(h);
    assert b[4..8] == LE32(h.recCount);
    assert b[8..10] == LE16(h.dataOffset);
    assert b[10..12] == LE16(h.recSize);
    LE32RoundTrip(h.recCount);
    LE16RoundTrip(h.dataOffset);
    LE16RoundTrip(h.recSize);
  }

  lemma DecodeHeaderBytes(h: Header)
    ensures DecodeHeader(HeaderBytes(h)) == h
  {
    HeaderLayout(h);
    var b := HeaderBytes(h);
    assert b[12..29] == h.filler1;
    assert b[30..32] == h.filler2;
  }

  lemma HeaderBytesDecode(b: seq<byte>)
    requires |b| == HEADER_SIZE
    ensures HeaderBytes(DecodeHeader(b)) == b
  {
    FromLE32RoundTrip(b[4..8]);
    FromLE16RoundTrip(b[8..10]);
    FromLE16RoundTrip(b[10..12]);
    assert b == b[..4] + b[4..8] + b[8..10] + b[10..12] + b[12..29] + [b[29]] + b[30..32];
  }

  /** `read`: nothing left is EOF, a partial header an unexpected EOF, and a
      first byte other than 0x03 is not a DBF file. */
  function ReadHeader(input: seq<byte>): (r: Result<(Header, seq<byte>)>)
    ensures |input| == 0 ==> r == Err(EndOfFile)
    ensures 0 < |input| < HEADER_SIZE ==> r == Err(UnexpectedEndOfFile)
    ensures |input| >= HEADER_SIZE && input[0] != DBF_ID ==> r == Err(NotDbf)
    ensures r.Ok? ==>
      r.value.0.id == DBF_ID && r.value.1 == input[HEADER_SIZE..] && HeaderBytes(r.value.0) == input[..HEADER_SIZE]
  {
    if |input| == 0 then Err(EndOfFile)
    else if |input| < HEADER_SIZE then Err(UnexpectedEndOfFile)
    else
      var h := DecodeHeader(input[..HEADER_SIZE]);
      HeaderBytesDecode(input[..HEADER_SIZE]);
      if h.id != DBF_ID then Err(NotDbf) else Ok((h, input[HEADER_SIZE..]))
  }

  /** A written header reads back unchanged, exactly when its signature is 0x03. */
  lemma ReadWrittenHeader(h: Header, rest: seq<byte>)
    ensures ReadHeader(HeaderBytes(h) + rest) == if h.id == DBF_ID then Ok((h, rest)) else Err(NotDbf)
  {
    var input := HeaderBytes(h) + rest;
    assert input[..HEADER_SIZE] == HeaderBytes(h);
    assert input[HEADER_SIZE..] == rest;
    DecodeHeaderBytes(h);
  }

  // ------------------------------------------------------------- code page

  /** `codePage`. */
  function CodePage(t: Table, h: Header): int
  {
    PageByCode(t, h.cp)
  }

  /** `setCodePage`: an unsupported page stores 0. */
  function SetCodePage(t: Table, h: Header, page: int): (r: Header)
    ensures r == h.(cp := r.cp)
  {
    h.(cp := CodeByPage(t, page))
  }

  /** A supported page reads back; an unsupported one reads back as 0. */
  lemma CodePageRoundTrip(t: Table, h: Header, page: int)
    requires WellFormed(t)
    ensures CodePage(t, SetCodePage(t, h, page)) == if CharmapByPage(t, page).Some? then page else 0
  {
    PageByCodeByPage(t, page);
  }

  /** A fresh header has no code page. */
  lemma NewHeaderCodePage(t: Table, now: CivilDate)
    requires WellFormed(t)
    ensures CodePage(t, NewHeader(now)) == 0
  {
  }

  /** The header of five fields, three 39-byte records, last changed on
      20 February 1930, in code page 866. */
  lemma HeaderExample(t: Table, i: nat, now: CivilDate)
    requires WellFormed(t) && i < |t| && t[i].page == 866 && t[i].code == 0x65
    ensures var h := SetCodePage(t, SetModDate(SetFieldCount(NewHeader(now).(recCount := 3, recSize := 39), 5),
                                               Date(1930, 2, 20)), 866);
      HeaderBytes(h) == [0x03, 0x1E, 0x02, 0x14, 0x03, 0, 0, 0, 0xC1, 0, 0x27,
                         0, 0, 0, 0, 0, 0, 0, 0, 0, 0, 0, 0, 0, 0, 0, 0, 0, 0, 0x65, 0, 0]
  {
    Russian866(t, i);
  }
}
