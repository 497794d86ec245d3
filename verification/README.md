# dbf: a verified model of a dBASE file codec

This project models the core of the Go package `dbf` and of its companion
`xbase`. Together they read and write dBASE III (`.dbf`) tables.

A file is laid out as follows:

- a 32-byte little-endian header: signature 0x03, date of last change,
  record count, data offset, record width and code-page byte;
- one 32-byte descriptor per field;
- the terminator 0x0D;
- the records, each a deletion mark followed by the fixed-width fields;
- the end-of-file byte 0x1A.

The model covers these parts of the Go code:

- **strutil.go:** padding, trimming and ASCII tests on byte strings.
- **field.go:** field descriptors. This covers the validated constructors,
  the name and the 32-byte encoding. It also covers the per-type conversion
  between a typed value and the field's slot in a record buffer: character
  `C`, logical `L`, date `D` and numeric `N`.
- **fields.go:** the field collection. This covers its sticky error,
  `Get`, the cumulative layout of the fields in the record, the record width
  and the descriptor table.
- **header.go:** the header record. This covers the modified date stored
  as `year - 1900`, the field count derived from the data offset, and the
  code-page byte.
- **reader.go:** the sequential `Reader`. Opening reads the header, the
  descriptors and the terminator. `Read` turns one record after another
  into a sequence of values.
- **writer.go:** the sequential `Writer`. Creating it queues the header,
  the descriptors and the terminator. `Write` fills the record buffer
  field by field and queues it. `Flush` appends 0x1A and rewrites the
  header with the final record count.
- **xbase.go:** the random-access `XBase` navigator. It covers the field
  lookup by name and by number, the code page, opening a file, and the
  cursor moves `First`, `Last`, `Next` and `Prev`. It also covers the
  typed field getters.

How the Go features map to the model:

- A Go function returning `(T, error)` becomes a function returning
  `Result<T>`.
- A Go run-time panic becomes the error `OutOfRange`. Examples are a
  slice out of range or a name without a NUL byte.
- A failed type assertion in a getter becomes the error `WrongKind`.
- Go's fixed-width integers are subset types. Every conversion wraps
  explicitly.
- Streams are byte sequences. The stream a writer writes to is a
  `Sink`: its content plus a position.
- The open file of the navigator is its whole content.

The code-page table and its character maps are external to the codec, so
they are a parameter. A well-formedness predicate states that page numbers
and header bytes are unique and non-zero. The floating-point conversions
(`FormatFloat`, `ParseFloat`, `float64(int64)`) are also a parameter
(`Floats`). The current date is passed in where Go calls `time.Now`.

The main results:

- **Field round trip.** Each field type reads back what was written
  (`RoundTrip.FieldRoundTrip`). A whole record reads back when its slots
  are disjoint (`RoundTrip.RecordRoundTrip`).
- **File round trip.** A file created on an empty stream, filled with
  records and flushed, opens with the same fields, record count and code
  page. It reads back every record in order and then reports the end of
  the file (`RoundTrip.WriteThenRead`).
- **Navigator round trip.** The navigator, opened on such a file, loads
  record `n` as the `n`-th record written (`NavigatorRoundTrip.NavigateWritten`).
- **Byte layouts.** The descriptor and header layouts are inverse
  encodings. The integer text conversion round-trips over the whole int64
  range. The eight-digit date text round-trips for four-digit years.
- **Findings.** Two defects are recorded under "## Findings". The
  writer and the navigator start from the corrected fresh header.

## Model

| member | source | states |
|---|---|---|
| Bytes.Wrap | header.go:48 | a Go conversion to an `m`-valued unsigned type always yields a value in `[0, m)` |
| Bytes.WrapQuotient | header.go:60 | the conversion only adds or removes whole multiples of the modulus |
| Bytes.WrapIsMod | header.go:48 | for 8-, 16- and 32-bit targets the wrap is the two's-complement truncation `x % m` |
| Bytes.ToUint16Small | header.go:60 | a value that fits in 16 bits is unchanged by `uint16(...)` |
| Bytes.ToUint32Small | fields.go:60 | a value that fits in 32 bits is unchanged by `uint32(...)` |
| Bytes.Inc32Wraps | reader.go:128 | the `uint32` record counter bumped by one is `uint32(x + 1)`, so it goes up by one below the maximum and wraps to 0 past it |
| Bytes.Repeat | field.go:230 | `strings.Repeat` of one byte has the asked length and holds only that byte |
| Bytes.Zeros | writer.go:101 | `make([]byte, n)` is `n` zero bytes |
| Bytes.LE16 | header.go:75-77 | a `uint16` is laid out in two bytes |
| Bytes.LE32 | header.go:75-77 | a `uint32` is laid out in four bytes |
| Bytes.LE16RoundTrip | header.go:65-77 | decoding the two little-endian bytes of a `uint16` gives it back |
| Bytes.FromLE16RoundTrip | header.go:65-77 | encoding the value of any two bytes gives those bytes back |
| Bytes.LE32RoundTrip | header.go:65-77 | decoding the four little-endian bytes of a `uint32` gives it back |
| Bytes.FromLE32RoundTrip | header.go:65-77 | encoding the value of any four bytes gives those bytes back |
| Bytes.CopyInto | writer.go:178 | `copy` into a slot copies as many bytes as both the slot and the text hold, keeps the rest of the slot and leaves everything outside the slot alone |
| Bytes.WriteAt | writer.go:191-197 | a write at a position overwrites exactly the written range and extends the data only past its end |
| Bytes.WriteAtBeyond | writer.go:195 | bytes after the written range are untouched |
| Bytes.WriteAtFront | writer.go:191-197 | rewriting the front of a longer stream replaces just its prefix |
| StrUtil.PadRight | strutil.go:8-13 | the text is kept as a prefix and spaces fill up to the width; a text already that wide is returned as is |
| StrUtil.PadLeft | strutil.go:15-20 | spaces fill up to the width and the text is kept as a suffix; a text already that wide is returned as is |
| StrUtil.IsAscii | strutil.go:22-29 | true exactly when no byte is above 0x7F |
| StrUtil.IsEmpty | strutil.go:58-65 | true exactly when every byte is a space, so the empty buffer counts as empty |
| StrUtil.TrimRight | strutil.go:44-56 | the result is a prefix that does not end in a space, and only spaces follow it |
| StrUtil.TrimLeft | strutil.go:31-42 | the result is a suffix that does not start with a space, and only spaces precede it |
| StrUtil.TrimRightUnique | strutil.go:44-56 | the three properties of TrimRight determine its result uniquely |
| StrUtil.TrimLeftUnique | strutil.go:31-42 | the three properties of TrimLeft determine its result uniquely |
| StrUtil.TrimEmptyIff | strutil.go:31-65 | trimming on either side gives the empty string exactly for buffers `isEmpty` accepts |
| StrUtil.TrimKeepsOtherBytes | strutil.go:31-56 | only byte 0x20 is trimmed; a buffer ending (starting) in a tab or any other byte comes back whole |
| StrUtil.PadRightTrimRight | strutil.go:8-13 | right padding is undone by right trimming for any text that does not end in a space |
| StrUtil.PadLeftTrimLeft | strutil.go:15-20 | left padding is undone by left trimming for any text that does not start with a space |
| StrUtil.TrimRightLoop | strutil.go:44-56 | the index loop as written computes TrimRight |
| StrUtil.TrimLeftLoop | strutil.go:31-42 | the index loop as written computes TrimLeft |
| StrUtil.TrimLeadingSpace | reader.go:179 | the leading white-space run is dropped and the rest is kept as a suffix |
| StrUtil.TrimTrailingSpace | reader.go:179 | the trailing white-space run is dropped and the rest is kept as a prefix |
| StrUtil.TrimSpaceSlice | reader.go:179 | `strings.TrimSpace` returns a contiguous slice of its input, with only white space cut off at either end and no white space at its own ends |
| StrUtil.TrimSpaceOfTrimmed | reader.go:179 | a text without white space at its ends is its own TrimSpace |
| StrUtil.TrimSpacePadLeft | reader.go:179 | TrimSpace undoes left padding of a text without white space at its ends |
| StrUtil.ToUpper | field.go:98 | upper-casing keeps the length and maps each byte on its own |
| StrUtil.NormalizeNameIdempotent | xbase.go:73 | trimming and upper-casing a name twice is the same as once, so a stored name is found under the name it was stored with |
| Strconv.Digits | field.go:228 | the decimal digits of a natural number are one digit exactly below 10, and there is no leading zero |
| Strconv.FixedDigits | field.go:222 | a zero-padded number has exactly the asked width and only digits |
| Strconv.DigitsValueOfDigits | field.go:177 | reading the digits of `n` gives `n` |
| Strconv.FixedDigitsValue | field.go:165 | reading `n` zero-padded to `w` digits gives `n` whenever `n < 10^w` |
| Strconv.FixedDigitsOfValue | field.go:222 | printing the value of a digit string at its own width gives the string back, leading zeros included |
| Strconv.FormatInt | field.go:228 | the text starts with a minus sign exactly for negative values and is otherwise all digits |
| Strconv.ParseInt | field.go:177 | an accepted text is an optional sign followed by at least one digit, and a negative result needs a minus sign |
| Strconv.ParseFormatInt | field.go:177 | parsing the formatted text of every int64 gives it back |
| Strconv.ParseFormatNegative | field.go:177 | the formatted text of a negative int64 parses back to it, `math.MinInt64` included |
| Strconv.ParseFormatNonNegative | field.go:177 | the formatted text of a non-negative int64 parses back to it |
| Strconv.DigitsValueLeadingZero | field.go:177 | a leading zero digit does not change the value read |
| Strconv.ParseIntLeadingZeroAndPlus | field.go:177 | the parser ignores a leading zero and an explicit plus sign |
| Dates.DaysIn | field.go:165 | a month has 28 to 31 days, and 29 exactly for February of a leap year |
| Dates.YearText | field.go:222 | a year from 0 to 9999 prints as four digits; a negative year starts with a minus sign |
| Dates.Format | field.go:222 | a date with a four-digit year prints as eight digits |
| Dates.Parse | field.go:165 | an accepted text is eight bytes naming a year from 0 to 9999; every rejection is an invalid date |
| Dates.ParseFormat | field.go:165 | every date with a four-digit year survives formatting then parsing |
| Dates.FormatParse | field.go:165 | any text that parses is exactly the formatting of the date it parses to |
| Dates.ParseParts | field.go:165 | a successful parse read three digit groups: year, month and day |
| Dates.FormatParts | field.go:222 | a four-digit year is formatted as the zero-padded groups YYYY, MM and DD |
| Dates.ParseFixed | field.go:165 | eight digits parse exactly when they name a real day; 29 February outside leap years, 31 April or month 13 is an error, not a rolled-over date |
| CodePages.IndexOf | header.go:81-87 | the first position holding a key, or none exactly when no position holds it; both lookups of the table search one of its columns with it |
| CodePages.IndexOfPage | header.go:85-87 | the first row of the table for a page, or none exactly when no row has it |
| CodePages.IndexOfCode | header.go:81-83 | the first row of the table for a header byte, or none exactly when no row has it |
| CodePages.RowLookup | codepage_test.go:12-22 | in a well-formed table each row is found by its page and by its byte |
| CodePages.PageByCodeByPage | header.go:81-87 | a supported page stored as its byte reads back as the page; an unsupported page is stored as 0, which reads back as no code page |
| CodePages.CodeByPageByCode | header.go:81-87 | a header byte that names a page names a supported one, and it is the byte that page is stored as |
| CodePages.Russian866 | codepage_test.go:12-22 | a table holding the row for page 866 maps 866 to byte 0x65 and back, and selects that row's charmap |
| FieldDesc.IndexByte | field.go:93 | the first position of the byte, or -1 exactly when it does not occur |
| FieldDesc.Name | field.go:92-95 | the name is the bytes before the first NUL of the name array; without a NUL the slice panics |
| FieldDesc.FieldFailure | writer.go:112 | a field's error is wrapped with its name; a panic, including one from a name without a NUL, passes through unwrapped |
| FieldDesc.RecordFailure | writer.go:84 | a record's error is wrapped with its number; a panic passes through unwrapped |
| FieldDesc.SetName | field.go:97-107 | the trimmed and upper-cased name is rejected when empty or longer than 10 bytes; otherwise it is copied over the start of the name array and nothing else changes |
| FieldDesc.NameOfSetName | field.go:92-107 | on a fresh descriptor the stored name reads back as the normalised name, provided it holds no NUL byte |
| FieldDesc.NameOfTerminated | field.go:92-95 | a name array holding `n` and then a NUL reads as `n` |
| FieldDesc.SetNameOfName | field.go:97-107 | setting a name that is already stored leaves the descriptor unchanged |
| FieldDesc.NewLogicalField | field.go:34-42 | succeeds exactly when the name is accepted, with type L, length 1 and no decimals |
| FieldDesc.NewDateField | field.go:44-52 | succeeds exactly when the name is accepted, with type D, length 8 and no decimals |
| FieldDesc.NewCharacterField | field.go:54-65 | a length outside 1..254 is refused before the name is looked at; otherwise it succeeds exactly when the name is accepted |
| FieldDesc.NewNumericField | field.go:67-88 | a length outside 1..19 is refused first, then bad decimals, then the name; a result carries the asked length and decimals |
| FieldDesc.SetNameReadable | field.go:92-107 | a name accepted on a fresh descriptor can always be read back without a panic |
| FieldDesc.ConstructorsValid | field.go:34-88 | every descriptor a constructor returns has a readable name and a valid type, length and decimal count |
| FieldDesc.Encode | field.go:115-120 | a descriptor is written as exactly 32 bytes |
| FieldDesc.EncodeLayout | field.go:115-120 | the name, type, zero offset, length, decimals and filler sit at their dBASE positions |
| FieldDesc.DecodeEncode | field.go:111-120 | reading a written descriptor restores it, except that the in-memory offset comes back as 0 |
| FieldDesc.EncodeDecode | field.go:111-120 | writing a read descriptor gives back the same 32 bytes whenever their stored offset was 0 |
| FieldDesc.ReadDescriptor | field.go:111-113 | an exhausted stream is EOF, a partial descriptor is an unexpected EOF, and a success consumes exactly 32 bytes |
| FieldDesc.ReadDescriptorRewrites | field.go:111-120 | a descriptor read from bytes whose offset is 0 is written back as the same bytes |
| FieldDesc.ReadEncoded | field.go:111-120 | a stream starting with a written descriptor yields that descriptor and then the rest of the stream |
| FieldDesc.FieldBuf | field.go:133-135 | the slot exists exactly when it lies inside the record buffer, and it is `len` bytes wide; otherwise the slice panics |
| FieldDesc.SetFieldBuf | field.go:191-193 | copying into a slot changes nothing outside it, and a text as wide as the slot is then read back as the slot |
| FieldDesc.CheckLen | field.go:124-129 | a text is accepted exactly when it fits the field width, and the overflow error carries the text and the width |
| FieldDesc.CharacterText | writer.go:127-141 | an encoder error or a too-long encoded text is an error; otherwise the slot text is as wide as the field and trims to the same text as the encoded value |
| FieldDesc.BoolText | field.go:212-219 | one byte, read as true exactly when the value is true |
| FieldDesc.IntText | field.go:227-238 | succeeds exactly when the digits, plus the point and `dec` zeros when there are decimals, fit the field; the slot then trims back to that text |
| FieldDesc.IntDigits | field.go:228-230 | the unpadded integer text is the decimal form, followed by a point and `dec` zeros when there are decimals; it has no white space at its ends |
| FieldDesc.FloatText | field.go:240-248 | succeeds exactly when the formatted float fits, and ends the slot with that text |
| FieldDesc.StringFieldValue | field.go:137-148 | the slot without trailing spaces, passed to the decoder only when a decoder is set and the text is not ASCII; a slot outside the buffer panics |
| FieldDesc.BoolFieldValue | field.go:150-155 | true exactly when the first byte of the slot is T, t, Y or y; an empty or out-of-range slot panics |
| FieldDesc.DateFieldValue | field.go:157-166 | an all-space slot is the zero date, any other slot must parse, and a non-zero date read is exactly the formatting of the slot |
| FieldDesc.IntFieldValue | field.go:168-178 | refused for a field with decimals; an all-space slot reads as 0 and any other slot is parsed after its leading spaces are dropped |
| FieldDesc.FloatFieldValue | field.go:180-187 | an all-space slot is parsed as "0" and any other slot after its leading spaces are dropped |
| FieldDesc.SetStringFieldValue | field.go:195-210 | the text error is passed on; with a good text the set succeeds exactly when the slot lies in the buffer, and a success changes only the slot and leaves the padded, encoded text there |
| FieldDesc.SetStringAsciiIgnoresEncoder | field.go:198 | plain ASCII text is stored as is, whatever encoder is set |
| FieldDesc.SetBoolFieldValue | field.go:212-219 | a success changes only the first byte of the slot, to T or F |
| FieldDesc.SetDateFieldValue | field.go:221-225 | a success changes only the slot, and an eight-byte slot then holds YYYYMMDD |
| FieldDesc.SetIntFieldValue | field.go:227-238 | the text error is passed on; a success changes only the slot and leaves the integer text there |
| FieldDesc.SetFloatFieldValue | field.go:240-248 | the text error is passed on; with a good text the set succeeds exactly when the slot lies in the buffer, and a success changes only the slot and leaves the float text there |
| FieldDesc.StoresPlain | field.go:195-210 | without a code page, exactly the texts that fit and do not end in a space survive a store and a read |
| FieldDesc.StringRoundTrip | field.go:137-148 | a storable string written with `setStringFieldValue` reads back with `stringFieldValue` |
| FieldDesc.StringOverflow | field.go:124-129 | a string wider than its field is refused with an overflow error |
| FieldDesc.BoolRoundTrip | field.go:150-155 | a boolean written reads back |
| FieldDesc.DateRoundTrip | field.go:157-166 | a date with a four-digit year written to an eight-byte slot reads back |
| FieldDesc.IntRoundTrip | field.go:168-178 | an int64 whose digits fit a field without decimals reads back |
| FieldDesc.IntReadsText | field.go:168-178 | a slot whose text left-trims to the decimal form of `v` reads as `v` |
| FieldDesc.BlankSlot | field.go:137-178 | an all-space slot reads as the empty string, false, the zero date and 0 |
| FieldList.Add | fields.go:27-45 | once an error is recorded nothing changes; otherwise a made field is appended, or the constructor's error is recorded |
| FieldList.FirstErr | fields.go:27-45 | the number of successful outcomes before the first failure |
| FieldList.Values | fields.go:44 | the fields of a run of successful outcomes, in order |
| FieldList.AddAllKeepsPrefix | fields.go:27-45 | a run of `Add` calls keeps exactly the fields made before the first failure, and records that failure |
| FieldList.AddAllSticky | fields.go:28-30 | once an error is recorded, further `Add` calls change nothing |
| FieldList.CountAfterAdds | fields.go:17-19 | `Count` after a run of `Add` calls on a new collection is the number of outcomes before the first failure |
| FieldList.TypeName | fields.go:51 | `string(byte)` is the byte itself below 0x80 and its two-byte UTF-8 encoding from 0x80 on |
| FieldList.Get | fields.go:48-55 | an index outside the items or a name without a NUL panics; otherwise the name, type, length and decimals of the item |
| FieldList.GetAddedCharacterField | fields.go:27-55 | a character field that was added is reported back with its normalised name, type C, its length and no decimals |
| FieldList.Layout | fields.go:57-67 | laying out assigns offsets and changes nothing else in any field |
| FieldList.LayoutBounds | fields.go:57-81 | within a 32-bit total width, each laid-out field lies between the start and the start plus the total width |
| FieldList.LayoutTiles | fields.go:57-81 | the first field starts at the start, each field starts where the previous one ends, and the last one ends at the start plus the total width |
| FieldList.LayoutDisjoint | fields.go:57-81 | two laid-out fields never overlap |
| FieldList.RecSizeCoversLayout | fields.go:83-89 | when the width fits 16 bits, the record width is one plus the field widths and the fields from offset 1 exactly fill it |
| FieldList.DescriptorBytes | fields.go:57-67 | the descriptor table holds 32 bytes per field |
| FieldList.ReadItems | fields.go:69-81 | without an error exactly `count` descriptors are read; an error is an EOF or unexpected EOF and leaves nothing of the stream |
| FieldList.ReadItemsLaidOut | fields.go:69-81 | whatever offsets the stream stores, the descriptors read are laid out one after the other from the start |
| FieldList.ReadItemsAligned | fields.go:69-81 | each descriptor read starts where the previous one ends |
| FieldList.ReadItemsEncoded | fields.go:69-81 | a stream starting with a written descriptor yields it, laid out at the start, ahead of what the rest of the stream yields |
| FieldList.ReadWritten | fields.go:57-81 | reading a written descriptor table gives the fields laid out from the start and leaves the stream just past the table |
| FieldList.WriteRead | fields.go:57-81 | reading what `Fields.write` wrote gives back the fields as the write leaves them, with the same offsets |
| FieldList.Read | fields.go:69-81 | the descriptors read are appended to those already held and are laid out from offset 1 |
| FileHeader.SetModDate | header.go:47-51 | only the three date bytes change |
| FileHeader.ModDateRoundTrip | header.go:40-51 | dates from 1900 to 2155 survive being stored in the header |
| FileHeader.ModDateWraps | header.go:48 | a later year wraps around: 2156 is stored as 1900 |
| FileHeader.NewHeader | header.go:31-36 | a fresh header has signature 0x03, no records, no width, no code page, no data offset and zeroed filler bytes, and stores the current date when it is in range |
| FileHeader.SetFieldCount | header.go:59-61 | only the data offset changes |
| FileHeader.FieldCountRoundTrip | header.go:55-61 | while the data offset fits 16 bits it is `32 * count + 33`, and the count reads back |
| FileHeader.FieldCountOf | header.go:55-61 | a data offset set from a count that fits gives that count back |
| FileHeader.FieldCountRange | header.go:55-57 | the truncating division is negative exactly for a data offset of 0 or 1, where it is -1, and never exceeds 2046 |
| FileHeader.NewHeaderFieldCount | header.go:31-36 | a fresh header as written, with no data offset yet, reads as -1 fields, not the 0 of header_test.go:29-30 |
| FileHeader.FreshHeader | header.go:31-36 | the corrected fresh header differs from `newHeader`'s only in its data offset and reports 0 fields |
| FileHeader.HeaderBytes | header.go:75-77 | a header is written as exactly 32 bytes |
| FileHeader.HeaderLayout | header.go:18-29 | each header field sits at its offset in the 32 bytes, multi-byte ones little-endian |
| FileHeader.DecodeHeaderBytes | header.go:65-77 | decoding written header bytes gives the header back |
| FileHeader.HeaderBytesDecode | header.go:65-77 | writing any decoded 32 bytes gives the bytes back |
| FileHeader.ReadHeader | header.go:65-73 | an exhausted stream is EOF, a partial header an unexpected EOF, a first byte other than 0x03 is not a DBF file, and a success is exactly the first 32 bytes |
| FileHeader.ReadWrittenHeader | header.go:65-77 | a written header reads back unchanged exactly when its signature is 0x03 |
| FileHeader.SetCodePage | header.go:85-87 | only the code-page byte changes |
| FileHeader.CodePageRoundTrip | header.go:81-87 | a supported page reads back, an unsupported one reads back as 0 |
| FileHeader.NewHeaderCodePage | header.go:31-36 | a fresh header has no code page |
| FileHeader.HeaderExample | header_test.go:44-61 | five fields, three 39-byte records, 20 February 1930 and page 866 give exactly the expected 32 bytes |
| DbfReader.DecoderFor | reader.go:60-64 | page 0 means no decoder; any other page the header reports comes from a row of the table, so its charmap is always found, whatever the table |
| DbfReader.NewReader | reader.go:33-66 | a header error is passed on, then a descriptor read error; a stream ending right after the descriptors gives EOF where the terminator is skipped; otherwise the reader holds the header read, the descriptors read (as many as the header announces, none for a negative count), the input after the terminator, the header page's decoder, record 0 and no cached record |
| DbfReader.NewReaderLaidOut | reader.go:111-125 | the fields of an opened file are laid out from offset 1, whatever offsets the descriptors store |
| DbfReader.SetCodePage | reader.go:68-76 | an unsupported page is refused and changes nothing; a supported one sets the decoder and the header byte only |
| DbfReader.SetCodePageReported | reader.go:68-80 | a page the reader accepts is the page it then reports |
| DbfReader.FieldInfos | reader.go:86-95 | one report per field, in order, with the name, type, length and decimals; a name without a NUL panics |
| DbfReader.NumericText | reader.go:179-182 | the slot with its white space trimmed; an empty text or a lone point becomes "0", so the text is never empty |
| DbfReader.FieldValue | reader.go:148-200 | the value of each type comes from that type's getter; a numeric field without decimals parses the trimmed text as an int64, and one with decimals hands the same text to the float parser; an unknown type is an error; a value always has the field's kind |
| DbfReader.IntSlotReads | reader.go:178-195 | an integer slot whose text trims to the decimal form of `i` reads as `i` |
| DbfReader.NumericLoneDot | reader.go:180-182 | a numeric slot holding only a point reads as 0, where `intFieldValue` would refuse it |
| DbfReader.RecordValues | reader.go:135-145 | succeeds exactly when every field reads, giving the values in field order; otherwise the error of the first failing field, tagged with its name |
| DbfReader.ReadRecord | reader.go:127-146 | the record number goes up by one (as a `uint32`) before the read; less than a full record left is EOF and consumes the stream; otherwise exactly one record width is consumed, and the record or its numbered error comes from its fields |
| DbfReader.Read | reader.go:97-109 | the record read does not depend on `ReuseRecord`; with it set the record is cached |
| DbfReader.ReuseRecordSameValues | reader.go:23-26 | reusing the record slice never changes which values are read or how far the stream advances |
| DbfReader.AsWrittenNilNil | reader.go:135-145 | with no fields, a read that is not at the end returns neither a record nor an error |
| DbfReader.AsWrittenNilNilExample | reader.go:97-99 | a concrete stream whose first read returns nil and nil |
| DbfReader.ReadRecordExactlyOne | reader.go:97-99 | the corrected read returns the empty record for zero fields, so a record or an error is always returned |
| DbfReader.AsWrittenAgrees | reader.go:127-146 | with at least one field, the Go read and the corrected one agree, and exactly one of record and error is returned |
| DbfReader.EndOfFileSticks | reader.go:129-134 | once the stream is exhausted every further read is EOF |
| DbfWriter.NewWriter | writer.go:48-104 | a collection error is passed on, no fields is refused, an unsupported positive page is refused; a success queues the header, the descriptors and 0x0D, lays out the fields from offset 1 and starts the buffer with the deletion mark; the header has zeroed filler bytes and stores the current date when it is in range |
| DbfWriter.NewWriterCodePage | writer.go:64-71 | the header of a new writer carries the page asked for, or none |
| DbfWriter.NewWriterFieldCount | writer.go:90 | the header of a new writer reads back its field count while the data offset fits 16 bits |
| DbfWriter.AsFloat | dbf_test.go:81-91 | floats and integers convert to a float, and every other kind is a type mismatch |
| DbfWriter.ValueText | writer.go:122-177 | an unknown type or a value of the wrong kind is an error; C and N texts are as wide as the field; each type's text comes from that type's conversion |
| DbfWriter.SetFieldValue | writer.go:122-180 | a text error is passed on; with a text, the write succeeds exactly when the slot fits, and it changes only the slot, which then starts with the text |
| DbfWriter.FillFieldsOk | writer.go:110-114 | the field loop succeeds exactly when every remaining field has a text and a slot inside the buffer |
| DbfWriter.FillFieldsFailure | writer.go:110-114 | a failed loop stops at the first field that cannot be set, with that field's own error |
| DbfWriter.FillKeeps | writer.go:110-114 | setting later fields keeps what an earlier, disjoint slot holds |
| DbfWriter.FillWritesAt | writer.go:110-114 | after a successful loop every field's slot holds that field's text |
| DbfWriter.Write | writer.go:82-120 | a record of the wrong length is refused; a failing field leaves the record unqueued and the count unchanged; otherwise the filled buffer is queued and the count goes up by one; errors carry the number the record would have had |
| DbfWriter.WriteFailureNamesField | writer.go:82-114 | a record that cannot be written is reported with its number and the first field that could not be set |
| DbfWriter.WriteAll | writer.go:82-87 | a successful run of writes changes only the buffer, the queued bytes and the count |
| DbfWriter.WriteAllAppends | writer.go:82-120 | a successful run only appends to the queued bytes, and counts one record per write while the counter does not wrap |
| DbfWriter.WriteAllStep | writer.go:82-87 | after a successful write the rest of the records go to the updated writer |
| DbfWriter.Flush | writer.go:183-199 | 0x1A follows the queued bytes, the header is rewritten at the front with the final record count, and the stream ends up just after the header |
| RoundTrip.FieldRoundTrip | writer.go:122-180 | for any storable value, the text the writer puts in a slot reads back as that value |
| RoundTrip.CharacterRoundTrip | reader.go:155-163 | a storable string reads back |
| RoundTrip.LogicalRoundTrip | reader.go:164-166 | a boolean in a non-empty slot reads back |
| RoundTrip.DateFieldRoundTrip | reader.go:167-177 | a date with a four-digit year in an eight-byte slot reads back |
| RoundTrip.IntegerRoundTrip | reader.go:178-195 | an integer whose digits fit reads back |
| RoundTrip.FloatRoundTrip | reader.go:178-195 | a float whose formatted text parses back to it reads back |
| RoundTrip.RecordRoundTrip | writer.go:106-120 | filling disjoint slots inside the buffer with storable values succeeds, and the buffer reads back as the values |
| RoundTrip.WriteStep | writer.go:82-120 | one write of a storable record succeeds, queues the buffer, counts the record, and the buffer reads back as the record |
| RoundTrip.WriteAllHolds | writer.go:82-120 | a run of writes appends one record buffer per record, and each reads back as its record |
| RoundTrip.Oks | reader.go:97-100 | the records as a run of successful reads |
| RoundTrip.ReadN | reader.go:101-109 | `n` successive reads give `n` results |
| RoundTrip.ReadOne | reader.go:127-146 | one read over a buffer holding a record returns it, moves past it and keeps the header, fields and decoder |
| RoundTrip.ReadNHolds | reader.go:127-146 | a reader over a run of written records returns them in order and stops right after them |
| RoundTrip.NewWriterReady | writer.go:89-104 | a new writer's slots are disjoint, lie inside its buffer, and store every storable record |
| RoundTrip.WrittenFile | writer.go:183-199 | on an empty stream, the flushed file is the header with the record count, the descriptors, 0x0D, one buffer per record and 0x1A |
| RoundTrip.OpenWritten | reader.go:33-66 | a file laid out as the writer lays it out opens with the header written, the fields laid out from offset 1, the records right after 0x0D and the header page's decoder |
| RoundTrip.WrittenDecoder | reader.go:60-64 | the decoder a reader picks up from the written header is the writer's encoder, and the page reported is the page asked for |
| RoundTrip.OpenFlushed | reader.go:33-66 | the flushed bytes open with the final header, the writer's fields and charmap, and the records followed by 0x1A |
| RoundTrip.WriteThenRead | reader.go:97-146 | a created, filled and flushed file opens with the same fields, record count and code page, reads back every record in order, and then reports EOF |
| Navigator.New | xbase.go:39-41 | a fresh navigator has the corrected fresh header (see "## Findings"), no fields, no file, no charmaps and record number 0 |
| Navigator.NewIsEmpty | xbase_test.go:9-16 | a fresh navigator has no fields and no records, stands at record 0, and is at both ends at once |
| Navigator.EndsIff | xbase.go:60-67 | on a valid cursor, EOF is past the last record or no records, BOF is record 0 or no records, and a record is current exactly when neither holds |
| Navigator.FindName | xbase.go:74-79 | the first field with the name, numbered from 1, with every earlier name different; 0 when no field has it; comparing with a name without a NUL panics |
| Navigator.FieldNo | xbase.go:72-80 | the first field whose name is the trimmed, upper-cased argument, or 0 when none is; with readable names it never panics |
| Navigator.FieldByNo | xbase.go:97-102 | a field number is accepted exactly when it is from 1 to the field count, and gives that field |
| Navigator.WrapFieldError | xbase.go:138-144 | an error is tagged with the field number, plus the name when the number is in range; a panic passes through |
| Navigator.FieldInfo | xbase.go:84-95 | a number out of range is a wrapped range error; otherwise the name, the type as a one-byte string, the length and the decimals |
| Navigator.FieldNoInfo | xbase.go:72-95 | a field found by name reports that normalised name back |
| Navigator.FieldInfoAgreesWithGet | xbase.go:91 | for ASCII type bytes, the navigator's report is the collection's `Get` at the zero-based index; from 0x80 on the two differ in the type string |
| Navigator.AddField | xbase.go:117-132 | a constructor error is tagged with the name as given; a made field is appended and nothing else changes |
| Navigator.FieldNoFindsAdded | xbase.go:72-132 | a field added under a name no earlier field carries is found by that name, as the last field |
| Navigator.FirstMatchIsLast | xbase.go:74-79 | a name that only the last field carries is found there |
| Navigator.SetCodePage | xbase.go:164-172 | an unsupported page changes nothing; a supported one sets both charmaps and the header byte |
| Navigator.SetCodePageReported | xbase.go:164-178 | a supported page is reported back; an unsupported one leaves the reported page as it was |
| Navigator.OpenFile | xbase.go:181-225 | the header, then as many descriptors as it announces, appended to the fields already held and laid out from offset 1; a record buffer of the record width; the header's code page when it has a charmap; the cursor does not move |
| Navigator.OpenFileCodePage | xbase.go:207 | with a well-formed table, an opened navigator reports the page named in the file's header |
| Navigator.RecordOffset | xbase.go:257 | record `n` starts at or after the data offset |
| Navigator.ReadAt | xbase.go:258-264 | a read copies as many bytes as both the buffer and the rest of the file hold into the front of the buffer; with nothing left it is EOF unless the buffer is empty |
| Navigator.GoTo | xbase.go:246-266 | a number before the first record moves to 0, one after the last to RecCount + 1, neither touching the file; otherwise the number is set and a record wholly inside the file is read into the buffer; only the number and buffer change |
| Navigator.FirstLast | xbase.go:269-282 | with records, First and Last land on a record; with none, First lands past the end and Last before the start |
| Navigator.NextPrev | xbase.go:285-298 | Next then Prev returns from anywhere but past the end; Prev then Next returns from anywhere but before the start |
| Navigator.EndsStick | xbase.go:285-298 | Next past the end and Prev before the start stay where they are |
| Navigator.NextN | xbase.go:285-290 | repeated Next changes only the record number and the buffer |
| Navigator.NextNRecNo | xbase.go:285-290 | each Next moves one record on, until the cursor is past the end |
| Navigator.Scan | xbase.go:269-290 | the loop `First(); for !EOF() { Next() }` visits records 1 to RecCount in order |
| Navigator.FieldValueOf | xbase.go:302-310 | a number out of range is a range error; otherwise the field's value, with errors tagged by number and name |
| Navigator.FieldValueAsString | xbase.go:302-312 | a result comes from a character field, read with the navigator's decoder; a value of another kind fails the type assertion |
| Navigator.FieldValueAsInt | xbase.go:316-326 | a result comes from a numeric field without decimals; a value of another kind fails the type assertion |
| Navigator.FieldValueAsFloat | xbase.go:330-340 | a result comes from a numeric field with decimals; a value of another kind fails the type assertion |
| Navigator.FieldValueAsBool | xbase.go:344-354 | a result comes from a logical field; a value of another kind fails the type assertion |
| Navigator.FieldValueAsDate | xbase.go:358-369 | a result comes from a date field; a value of another kind fails the type assertion |
| Navigator.NonCharacterIgnoresCharmap | xbase.go:316-369 | only character fields are decoded, so the other getters read the same value whatever charmap is passed |
| Navigator.GettersReadValue | xbase.go:302-369 | for a field of the matching kind, each typed getter returns exactly the value the record holds |
| Navigator.CurrentRecordFields | xbase.go:302-369 | when the current record reads as a record, field `i` reads as its `i`-th value |
| Navigator.IntStoredReadBack | xbase.go:316-326 | an integer stored with `setIntFieldValue` in the current record is what `FieldValueAsInt` returns |
| Navigator.IntSlotReadBack | xbase.go:316-326 | a numeric slot whose text trims to the decimal form of `v` reads as `v` |
| Navigator.StringStoredReadBack | xbase.go:302-312 | a string stored with the navigator's charmap is what `FieldValueAsString` returns |
| NavigatorRoundTrip.HoldsAt | xbase.go:257 | record `k` of a run of record buffers is the slice of record-width bytes at `k` times the width |
| NavigatorRoundTrip.OpenFileAsReader | xbase.go:181-225 | a navigator without charmaps opens a file `NewReader` accepts with the reader's header, fields (after any it had) and decoder |
| NavigatorRoundTrip.GoToLoads | xbase.go:246-266 | moving to record `n` of a file whose records start at the data offset loads that record's bytes |
| NavigatorRoundTrip.NavigateWritten | xbase.go:181-266 | a written and flushed file opens in the navigator with the writer's fields and record count, and moving to record `n` makes the buffer read as the `n`-th record written |
| NavigatorRoundTrip.FlushedFile | writer.go:183-199 | a flushed file is the header, descriptors and terminator, then the records, then 0x1A, and the data offset points at the records |
| NavigatorRoundTrip.NavigateFile | xbase.go:181-266 | opening a file the reader accepts and moving to record `n` loads the `n`-th record it holds |
| NavigatorRoundTrip.NavigateAt | xbase.go:246-266 | moving to record `n` changes only the record number and buffer, and the buffer reads as record `n` |

## Left out

- Text handling is ASCII only. `strings.TrimSpace` and `strings.ToUpper`
  (field.go:98, reader.go:179, xbase.go:73) are modelled on ASCII bytes.
  Unicode white space and multi-byte case mapping are left out.
- FileHeader.ModDate gives the raw year, month and day (header.go:40-45).
  The normalisation `time.Date` applies to out-of-range months and days is
  not modelled.
- FieldDesc.FloatFieldValue, FieldDesc.FloatText and DbfReader.FieldValue
  state the float case only as the result of the given formatter and parser.
  `strconv.FormatFloat` and `strconv.ParseFloat` are opaque, because the
  model has no floating-point arithmetic.
- The code-page table and its character maps are a parameter.
  codepage.go is not part of this model. Its known rows enter only
  through `CodePages.Russian866`.
- FieldList.Add takes the outcome of the field constructor (fields.go:39).
  `newField`, which dispatches on the type string, is not part of this
  model.
- DbfWriter.AsFloat accepts an integer as well as a float, following
  dbf_test.go:81-91. The `interfaceTo*` helpers of the `dbf` package are
  not part of this model. The `xbase` copy in conv.go:48-56 rejects
  integers.
- The `xbase` package's own field and header types are not part of this
  model. The navigator uses the `dbf` ones.
- Errors are reduced to kinds plus the context they carry. Message texts
  and the operation names `wrapError` adds (xbase.go:134-136, 269-298)
  are dropped.
- The `bufio` writer of writer.go:62 is collapsed into the queued bytes
  `pending`. The `bufio` reader of reader.go:39 is collapsed into the
  unconsumed stream.
- DbfWriter.NewWriter copies the field list. Go shares the `*Fields`
  pointer (writer.go:60), so Go's writer would see later `Add` calls.
- DbfReader.Read: the aliasing of the returned slice under `ReuseRecord`
  is dropped. Only the values are modelled.
- Navigator.OpenFile returns an error, and the partly updated navigator
  Go leaves behind on a failed open is not modelled (xbase.go:181-225).
- Navigator.ReadAt models one `File.Read` on a regular file. Short reads
  from other kinds of file are left out.
- DbfWriter.WriteAllAppends states the record count only while it stays
  below 2^32. Past that, the counter wraps as `Inc32` states.
- FieldDesc.SetDateFieldValue's stored text is stated only for
  eight-byte slots and years from 0 to 9999. That is the only range the
  reader parses back.
- `CloseFile` (xbase.go:228-244) is left out: closing a file is
  operating-system I/O. So are OS errors from opening or seeking, I/O
  errors of the underlying stream, and the `io.Reader`/`io.WriteSeeker`
  interface checks of NewReader and NewWriter (reader.go:34-36,
  writer.go:49-51).
- Navigator.New starts from the corrected `FileHeader.FreshHeader` (data
  offset 33) where xbase.go:40 calls `newHeader` (data offset 0). No
  navigator operation reads the data offset of a navigator without a
  file: with no records, `goTo` never computes a record position
  (xbase.go:246-258), and `OpenFile` replaces the header.
- `time.Now` in `newHeader` (header.go:34) becomes a parameter.

## Findings

| source | as written | input that shows it | evidently intended | confidence | as-written member | corrected member |
|---|---|---|---|---|---|---|
| reader.go:135-145 | with no fields, `dst` stays nil (`len(nil) == 0` matches), so a successful `readRecord` returns a nil record and a nil error, which breaks the promise of reader.go:98 | a header with signature 0x03, data offset 33 (no fields) and record size 1, then 0x0D and one record byte 0x20 | a non-nil empty record with a nil error | not executed | DbfReader.AsWrittenNilNil (with DbfReader.AsWrittenNilNilExample) | DbfReader.ReadRecordExactlyOne |
| header.go:31-36, 55-57 | `newHeader` leaves the data offset at 0, and `fieldCount` computes (0 - 33) / 32, which Go truncates to -1 | a header fresh from `newHeader`, before any `setFieldCount`; header_test.go:29-30 expects 0 | a fresh header reports 0 fields, its data offset being 33 | not executed | FileHeader.NewHeaderFieldCount | FileHeader.FreshHeader |
