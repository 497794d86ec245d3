/** The code-page table: which Windows/DOS code page goes with which language
    driver byte of the header, and the character map used to transcode text
    fields. The table itself and the charmaps are external to the codec, so
    the model takes them as a parameter and states only how they are looked up. */
module CodePages {
  import opened Bytes
  import opened Wrappers

  /** A character map: its encoder (UTF-8 to the code page) and decoder (the
      code page to UTF-8). Either may fail. */
  datatype Charmap = Charmap(
    encode: seq<byte> -> Result<seq<byte>>,
    decode: seq<byte> -> Result<seq<byte>>)

  /** One row of the table: code page number, header byte, charmap. */
  datatype CodePage = CodePage(page: int, code: byte, charmap: Charmap)

  type Table = seq<CodePage>

  /** Page numbers and header bytes are non-zero (zero means "no code page")
      and each occurs in at most one row. */
  predicate WellFormed(t: Table)
  {
    (forall i | 0 <= i < |t| :: t[i].page != 0 && t[i].code != 0) &&
    (forall i, j | 0 <= i < j < |t| :: t[i].page != t[j].page && t[i].code != t[j].code)
  }

  /** The first position holding key `k`, or none. */
  function IndexOf<K(==)>(keys: seq<K>, k: K): (r: Option<nat>)
    ensures r.Some? ==> r.value < |keys| && keys[r.value] == k
    ensures r.Some? ==> forall j | 0 <= j < r.value :: keys[j] != k
    ensures r.None? <==> forall j | 0 <= j < |keys| :: keys[j] != k
  {
    if |keys| == 0 then None
    else if keys[0] == k then Some(0)
    else match IndexOf(keys[1..], k)
      case None => None
      case Some(i) => Some(i + 1)
  }

  /** The page column of the table. */
  function Pages(t: Table): (r: seq<int>)
    ensures |r| == |t| && forall i | 0 <= i < |t| :: r[i] == t[i].page
  {
    seq(|t|, i requires 0 <= i < |t| => t[i].page)
  }

  /** The header-byte column of the table. */
  function Codes(t: Table): (r: seq<byte>)
    ensures |r| == |t| && forall i | 0 <= i < |t| :: r[i] == t[i].code
  {
    seq(|t|, i requires 0 <= i < |t| => t[i].code)
  }

  /** The first row for `page`. */
  function IndexOfPage(t: Table, page: int): (r: Option<nat>)
    ensures r.Some? ==> r.value < |t| && t[r.value].page == page
    ensures r.Some? ==> forall k | 0 <= k < r.value :: t[k].page != page
    ensures r.None? <==> forall k | 0 <= k < |t| :: t[k].page != page
  {
    IndexOf(Pages(t), page)
  }

  /** The first row for header byte `code`. */
  function IndexOfCode(t: Table, code: byte): (r: Option<nat>)
    ensures r.Some? ==> r.value < |t| && t[r.value].code == code
    ensures r.Some? ==> forall k | 0 <= k < r.value :: t[k].code != code
    ensures r.None? <==> forall k | 0 <= k < |t| :: t[k].code != code
  {
    IndexOf(Codes(t), code)
  }

  /** `charmapByPage`: the charmap of a supported page, nothing otherwise. */
  function CharmapByPage(t: Table, page: int): Option<Charmap>
  {
    match IndexOfPage(t, page)
    case None => None
    case Some(i) => Some(t[i].charmap)
  }

  /** `codeByPage`: the header byte of a page, 0 for an unknown page. */
  function CodeByPage(t: Table, page: int): byte
  {
    match IndexOfPage(t, page)
    case None => 0
    case Some(i) => t[i].code
  }

  /** `pageByCode`: the page of a header byte, 0 for an unknown byte. */
  function PageByCode(t: Table, code: byte): int
  {
    match IndexOfCode(t, code)
    case None => 0
    case Some(i) => t[i].page
  }

  /** In a well-formed table a row is found by either of its keys. */
  lemma RowLookup(t: Table, i: nat)
    requires WellFormed(t) && i < |t|
    ensures IndexOfPage(t, t[i].page) == Some(i)
    ensures IndexOfCode(t, t[i].code) == Some(i)
  {
  }

  /** Storing a supported page as its byte and reading it back gives the page;
      an unsupported page is stored as 0, which reads back as "no code page". */
  lemma PageByCodeByPage(t: Table, page: int)
    requires WellFormed(t)
    ensures CharmapByPage(t, page).Some? ==> PageByCode(t, CodeByPage(t, page)) == page
    ensures CharmapByPage(t, page).None? ==> CodeByPage(t, page) == 0 && PageByCode(t, 0) == 0
  {
    match IndexOfPage(t, page)
    case None =>
      assert IndexOfCode(t, 0).None?;
    case Some(i) =>
      RowLookup(t, i);
  }

  /** A header byte that names a page names a supported one, and it is the
      byte that page is stored as. */
  lemma CodeByPageByCode(t: Table, code: byte)
    requires WellFormed(t)
    ensures PageByCode(t, code) != 0 ==>
      CharmapByPage(t, PageByCode(t, code)).Some? && CodeByPage(t, PageByCode(t, code)) == code
  {
    match IndexOfCode(t, code)
    case None =>
    case Some(i) =>
      RowLookup(t, i);
  }

  /** Any table holding the row for code page 866 (Russian MS-DOS, language
      driver byte 0x65) maps the two onto each other. */
  lemma Russian866(t: Table, i: nat)
    requires WellFormed(t) && i < |t| && t[i].page == 866 && t[i].code == 0x65
    ensures CodeByPage(t, 866) == 0x65
    ensures PageByCode(t, 0x65) == 866
    ensures CharmapByPage(t, 866) == Some(t[i].charmap)
  {
    RowLookup(t, i);
  }
}
