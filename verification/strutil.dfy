/** The byte-string helpers every field encoding is built from: space padding,
    space trimming and the ASCII test (strutil.go), plus the two functions of Go's
    `strings` package the codec relies on, `TrimSpace` and `ToUpper`. Go strings
    are byte strings, so all of these work on `seq<byte>`. */
module StrUtil {
  import opened Bytes

  predicate EndsWithSpace(s: seq<byte>)
  {
    |s| > 0 && s[|s| - 1] == SPACE
  }

  predicate StartsWithSpace(s: seq<byte>)
  {
    |s| > 0 && s[0] == SPACE
  }

  /** padRight: `s` followed by spaces up to `width`; `s` itself when it is
      already that wide. */
  function PadRight(s: seq<byte>, width: int): (r: seq<byte>)
    ensures |s| >= width ==> r == s
    ensures |s| < width ==> |r| == width && r[..|s|] == s
    ensures |s| < width ==> forall i | |s| <= i < width :: r[i] == SPACE
  {
    if |s| >= width then s else s + Repeat(SPACE, width - |s|)
  }

  /** padLeft: spaces up to `width` followed by `s`; `s` itself when it is
      already that wide. */
  function PadLeft(s: seq<byte>, width: int): (r: seq<byte>)
    ensures |s| >= width ==> r == s
    ensures |s| < width ==> |r| == width && r[width - |s|..] == s
    ensures |s| < width ==> forall i | 0 <= i < width - |s| :: r[i] == SPACE
  {
    if |s| >= width then s else Repeat(SPACE, width - |s|) + s
  }

  /** isASCII: no byte above 0x7F. */
  function IsAscii(s: seq<byte>): (b: bool)
    ensures b <==> forall i | 0 <= i < |s| :: s[i] <= 0x7F
  {
    |s| == 0 || (s[0] <= 0x7F && IsAscii(s[1..]))
  }

  /** isEmpty: every byte is a space (so the empty buffer is empty). */
  function IsEmpty(buf: seq<byte>): (b: bool)
    ensures b <==> forall i | 0 <= i < |buf| :: buf[i] == SPACE
  {
    |buf| == 0 || (buf[0] == SPACE && IsEmpty(buf[1..]))
  }

  /** trimRight: the longest prefix of `buf` that does not end in a space.
      Only 0x20 is trimmed. */
  function TrimRight(buf: seq<byte>): (r: seq<byte>)
    ensures r <= buf
    ensures !EndsWithSpace(r)
    ensures forall i | |r| <= i < |buf| :: buf[i] == SPACE
  {
    if |buf| == 0 then []
    else if buf[|buf| - 1] == SPACE then TrimRight(buf[..|buf| - 1])
    else buf
  }

  /** trimLeft: the longest suffix of `buf` that does not start with a space. */
  function TrimLeft(buf: seq<byte>): (r: seq<byte>)
    ensures |r| <= |buf| && r == buf[|buf| - |r|..]
    ensures !StartsWithSpace(r)
    ensures forall i | 0 <= i < |buf| - |r| :: buf[i] == SPACE
  {
    if |buf| == 0 then []
    else if buf[0] == SPACE then TrimLeft(buf[1..])
    else buf
  }

  /** The three conditions in TrimRight's contract pin its result down: any
      prefix that does not end in a space and is followed only by spaces is it. */
  lemma TrimRightUnique(buf: seq<byte>, p: seq<byte>)
    requires p <= buf && !EndsWithSpace(p)
    requires forall i | |p| <= i < |buf| :: buf[i] == SPACE
    ensures p == TrimRight(buf)
  {
    var r := TrimRight(buf);
    if |p| > 0 {
      assert buf[|p| - 1] == p[|p| - 1];
    }
    if |r| > 0 {
      assert buf[|r| - 1] == r[|r| - 1];
    }
    assert |p| == |r|;
  }

  /** The mirror statement for TrimLeft. */
  lemma TrimLeftUnique(buf: seq<byte>, p: seq<byte>)
    requires |p| <= |buf| && p == buf[|buf| - |p|..] && !StartsWithSpace(p)
    requires forall i | 0 <= i < |buf| - |p| :: buf[i] == SPACE
    ensures p == TrimLeft(buf)
  {
    var r := TrimLeft(buf);
    if |p| > 0 {
      assert buf[|buf| - |p|] == p[0];
    }
    if |r| > 0 {
      assert buf[|buf| - |r|] == r[0];
    }
    assert |p| == |r|;
  }

  /** Trimming gives the empty string exactly for all-space buffers. */
  lemma TrimEmptyIff(buf: seq<byte>)
    ensures TrimRight(buf) == [] <==> IsEmpty(buf)
    ensures TrimLeft(buf) == [] <==> IsEmpty(buf)
  {
    if IsEmpty(buf) {
      TrimRightUnique(buf, []);
      TrimLeftUnique(buf, []);
    }
  }

  /** Only byte 0x20 is trimmed: a buffer ending (starting) with any other
      byte, a tab for one, comes back whole. */
  lemma TrimKeepsOtherBytes(buf: seq<byte>)
    requires |buf| > 0
    ensures buf[|buf| - 1] != SPACE ==> TrimRight(buf) == buf
    ensures buf[0] != SPACE ==> TrimLeft(buf) == buf
  {
    if buf[|buf| - 1] != SPACE {
      TrimRightUnique(buf, buf);
    }
    if buf[0] != SPACE {
      TrimLeftUnique(buf, buf);
    }
  }

  /** Right-padding then right-trimming gives back any string that does not
      itself end in a space. */
  lemma PadRightTrimRight(s: seq<byte>, width: int)
    requires !EndsWithSpace(s)
    ensures TrimRight(PadRight(s, width)) == s
  {
    TrimRightUnique(PadRight(s, width), s);
  }

  /** Left-padding then left-trimming gives back any string that does not
      itself start with a space. */
  lemma PadLeftTrimLeft(s: seq<byte>, width: int)
    requires !StartsWithSpace(s)
    ensures TrimLeft(PadLeft(s, width)) == s
  {
    var p := PadLeft(s, width);
    assert s == p[|p| - |s|..];
    TrimLeftUnique(p, s);
  }

  /** trimRight as strutil.go writes it: an index walking down from the end,
      bumped past the last non-space byte before the loop breaks. */
  method TrimRightLoop(buf: seq<byte>) returns (s: seq<byte>)
    ensures s == TrimRight(buf)
  {
    var i := |buf| - 1;
    var found := false;
    while i >= 0
      invariant -1 <= i < |buf|
      invariant forall k | i < k < |buf| :: buf[k] == SPACE
      decreases i + 1
    {
      if buf[i] != SPACE {
        found := true;
        break;
      }
      i := i - 1;
    }
    if found {
      i := i + 1;
    }
    if i < 0 {
      TrimRightUnique(buf, []);
      return [];
    }
    s := buf[0..i];
    if !found {
      TrimRightUnique(buf, []);
    } else {
      TrimRightUnique(buf, s);
    }
  }

  /** trimLeft as strutil.go writes it: an index walking up from the start. */
  method TrimLeftLoop(buf: seq<byte>) returns (s: seq<byte>)
    ensures s == TrimLeft(buf)
  {
    var i := 0;
    while i < |buf|
      invariant 0 <= i <= |buf|
      invariant forall k | 0 <= k < i :: buf[k] == SPACE
    {
      if buf[i] != SPACE {
        break;
      }
      i := i + 1;
    }
    if i >= |buf| {
      TrimLeftUnique(buf, []);
      return [];
    }
    s := buf[i..];
    TrimLeftUnique(buf, s);
  }

  // ---- Go's strings.TrimSpace and strings.ToUpper on ASCII input ----

  /** The bytes Go's `unicode.IsSpace` accepts below 0x80: tab, newline,
      vertical tab, form feed, carriage return and space. */
  predicate IsAsciiSpace(b: byte)
  {
    b == TAB || b == 0x0A || b == 0x0B || b == 0x0C || b == 0x0D || b == SPACE
  }

  /** The suffix left after dropping leading white space. */
  function TrimLeadingSpace(s: seq<byte>): (r: seq<byte>)
    ensures |r| <= |s| && r == s[|s| - |r|..]
    ensures |r| > 0 ==> !IsAsciiSpace(r[0])
    ensures forall i | 0 <= i < |s| - |r| :: IsAsciiSpace(s[i])
  {
    if |s| == 0 then []
    else if IsAsciiSpace(s[0]) then TrimLeadingSpace(s[1..])
    else s
  }

  /** The prefix left after dropping trailing white space. */
  function TrimTrailingSpace(s: seq<byte>): (r: seq<byte>)
    ensures r <= s
    ensures |r| > 0 ==> !IsAsciiSpace(r[|r| - 1])
    ensures forall i | |r| <= i < |s| :: IsAsciiSpace(s[i])
  {
    if |s| == 0 then []
    else if IsAsciiSpace(s[|s| - 1]) then TrimTrailingSpace(s[..|s| - 1])
    else s
  }

  /** strings.TrimSpace: `s` without leading and trailing white space. */
  function TrimSpace(s: seq<byte>): seq<byte>
  {
    TrimTrailingSpace(TrimLeadingSpace(s))
  }

  /** TrimSpace returns the slice s[a..a+|r|] of its input whose ends are not
      white space, with only white space cut off on either side. */
  lemma TrimSpaceSlice(s: seq<byte>) returns (a: nat)
    ensures var r := TrimSpace(s);
      a + |r| <= |s| && r == s[a..a + |r|]
      && (forall i | 0 <= i < a :: IsAsciiSpace(s[i]))
      && (forall i | a + |r| <= i < |s| :: IsAsciiSpace(s[i]))
      && (|r| > 0 ==> !IsAsciiSpace(r[0]) && !IsAsciiSpace(r[|r| - 1]))
  {
    a := TrimmedSlice(s, TrimLeadingSpace(s), TrimSpace(s));
  }

  /** The slice arithmetic behind TrimSpaceSlice, given only what the two
      trimming functions promise. */
  lemma TrimmedSlice(s: seq<byte>, l: seq<byte>, r: seq<byte>) returns (a: nat)
    requires |l| <= |s| && l == s[|s| - |l|..]
    requires |l| > 0 ==> !IsAsciiSpace(l[0])
    requires forall i | 0 <= i < |s| - |l| :: IsAsciiSpace(s[i])
    requires r <= l && (|r| > 0 ==> !IsAsciiSpace(r[|r| - 1]))
    requires forall i | |r| <= i < |l| :: IsAsciiSpace(l[i])
    ensures a + |r| <= |s| && r == s[a..a + |r|]
    ensures forall i | 0 <= i < a :: IsAsciiSpace(s[i])
    ensures forall i | a + |r| <= i < |s| :: IsAsciiSpace(s[i])
    ensures |r| > 0 ==> !IsAsciiSpace(r[0]) && !IsAsciiSpace(r[|r| - 1])
  {
    a := |s| - |l|;
    assert r == l[..|r|];
    forall i | a + |r| <= i < |s|
      ensures IsAsciiSpace(s[i])
    {
      assert s[i] == l[i - a];
    }
    if |r| > 0 {
      assert r[0] == l[0];
    }
  }

  /** A string with no white space at either end is its own TrimSpace. */
  lemma TrimSpaceOfTrimmed(s: seq<byte>)
    requires |s| > 0 ==> !IsAsciiSpace(s[0]) && !IsAsciiSpace(s[|s| - 1])
    ensures TrimSpace(s) == s
  {
  }

  /** Left-padding with spaces is undone by TrimSpace when the padded text has
      no white space at its ends. */
  lemma TrimSpacePadLeft(s: seq<byte>, width: int)
    requires |s| > 0 && !IsAsciiSpace(s[0]) && !IsAsciiSpace(s[|s| - 1])
    ensures TrimSpace(PadLeft(s, width)) == s
  {
    var p := PadLeft(s, width);
    var l := TrimLeadingSpace(p);
    assert p[|p| - |s|] == s[0];
    if |l| > 0 {
      assert p[|p| - |l|] == l[0];
    }
    assert |l| == |s|;
    assert l == s;
  }

  /** unicode.ToUpper on one ASCII byte; other bytes are left alone. */
  function UpperByte(b: byte): byte
  {
    if 0x61 <= b <= 0x7A then b - 0x20 else b
  }

  /** strings.ToUpper on ASCII text. */
  function ToUpper(s: seq<byte>): (r: seq<byte>)
    ensures |r| == |s|
    ensures forall i | 0 <= i < |s| :: r[i] == UpperByte(s[i])
  {
    seq(|s|, i requires 0 <= i < |s| => UpperByte(s[i]))
  }

  /** The normal form of a field name: `ToUpper(TrimSpace(name))`, as
      setName and FieldNo both compute it. */
  function NormalizeName(name: seq<byte>): seq<byte>
  {
    ToUpper(TrimSpace(name))
  }

  /** Normalising a field name twice changes nothing, so a stored name is
      found again by the name it was stored under. */
  lemma NormalizeNameIdempotent(name: seq<byte>)
    ensures NormalizeName(NormalizeName(name)) == NormalizeName(name)
  {
    var t := TrimSpace(name);
    var u := ToUpper(t);
    var _ := TrimSpaceSlice(name);
    if |u| > 0 {
      assert u[0] == UpperByte(t[0]);
      assert u[|u| - 1] == UpperByte(t[|t| - 1]);
    }
    TrimSpaceOfTrimmed(u);
    assert ToUpper(u) == u;
  }
}
