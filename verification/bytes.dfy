/** Bytes, Go's fixed-width integer conversions, little-endian packing and the
    byte-slice primitives (`copy`, overwrite at a position) the codec is built on. */
module Bytes {

  /** A Go `byte`. */
  type byte = x: int | 0 <= x < 0x100
  /** A Go `uint16`. */
  type uint16 = x: int | 0 <= x < 0x1_0000
  /** A Go `uint32`. */
  type uint32 = x: int | 0 <= x < 0x1_0000_0000
  /** A Go `int64`. */
  type int64 = x: int | -0x8000_0000_0000_0000 <= x < 0x8000_0000_0000_0000

  // File layout constants (one declaration for what dbf.go, header.go and field.go repeat)
  const DBF_ID: byte := 0x03
  const HEADER_END: byte := 0x0D
  const FILE_END: byte := 0x1A
  const HEADER_SIZE: nat := 32
  const FIELD_SIZE: nat := 32

  // ASCII bytes used by the field encodings
  const SPACE: byte := 0x20
  const TAB: byte := 0x09
  const PLUS: byte := 0x2B
  const MINUS: byte := 0x2D
  const DOT: byte := 0x2E
  const DIGIT_0: byte := 0x30
  const CHAR_C: byte := 0x43
  const CHAR_D: byte := 0x44
  const CHAR_F: byte := 0x46
  const CHAR_L: byte := 0x4C
  const CHAR_N: byte := 0x4E
  const CHAR_T: byte := 0x54
  const CHAR_Y: byte := 0x59
  const LOWER_T: byte := 0x74
  const LOWER_Y: byte := 0x79

  /** `x` brought into `[0, m)` by adding or subtracting `m` as often as
      needed: the value a Go conversion to an `m`-valued unsigned type keeps. */
  function Wrap(x: int, m: int): (r: int)
    requires m > 0
    ensures 0 <= r < m
    decreases x < 0, if x < 0 then -x else x
  {
    if x < 0 then Wrap(x + m, m)
    else if x < m then x
    else Wrap(x - m, m)
  }

  /** Wrapping only ever adds or removes whole multiples of the modulus. */
  lemma {:induction false} WrapQuotient(x: int, m: int) returns (k: int)
    requires m > 0
    ensures x == k * m + Wrap(x, m)
    decreases x < 0, if x < 0 then -x else x
  {
    if x < 0 {
      var k' := WrapQuotient(x + m, m);
      k := k' - 1;
      MulSucc(k, m);
    } else if x < m {
      k := 0;
    } else {
      var k' := WrapQuotient(x - m, m);
      k := k' + 1;
      MulSucc(k', m);
    }
  }

  lemma MulSucc(k: int, m: int)
    ensures (k + 1) * m == k * m + m
  {
  }

  /** For the moduli of Go's unsigned types wrapping is Euclidean remainder,
      which is two's-complement truncation. */
  lemma WrapIsMod(x: int, m: int)
    requires m == 0x100 || m == 0x1_0000 || m == 0x1_0000_0000
    ensures Wrap(x, m) == x % m
  {
    var k := WrapQuotient(x, m);
    var r := Wrap(x, m);
    if m == 0x100 {
      assert x == k * 0x100 + r;
    } else if m == 0x1_0000 {
      assert x == k * 0x1_0000 + r;
    } else {
      assert x == k * 0x1_0000_0000 + r;
    }
  }

  /** Go's `byte(x)`: keeps the low 8 bits. */
  function ToByte(x: int): byte { Wrap(x, 0x100) }

  /** Go's `uint16(x)`. */
  function ToUint16(x: int): uint16 { Wrap(x, 0x1_0000) }

  /** Go's `uint32(x)`. */
  function ToUint32(x: int): uint32 { Wrap(x, 0x1_0000_0000) }

  lemma ToUint16Small(x: int)
    requires 0 <= x < 0x1_0000
    ensures ToUint16(x) == x
  {
  }

  lemma ToUint32Small(x: int)
    requires 0 <= x < 0x1_0000_0000
    ensures ToUint32(x) == x
  {
  }

  /** A `uint32` counter bumped by one: past the largest value it starts
      again at 0. */
  function Inc32(x: uint32): uint32
  {
    if x == 0xFFFF_FFFF then 0 else x + 1
  }

  lemma Inc32Wraps(x: uint32)
    ensures Inc32(x) == ToUint32(x + 1)
    ensures x < 0xFFFF_FFFF ==> Inc32(x) == x + 1
  {
  }

  /** Go's integer division `a / b` for `b > 0`: it truncates toward zero,
      where Dafny's `/` rounds toward negative infinity for negative `a`. */
  function GoQuo(a: int, b: int): int
    requires b > 0
  {
    if a >= 0 then a / b else -((-a) / b)
  }

  function Repeat(b: byte, n: nat): (r: seq<byte>)
    ensures |r| == n
    ensures forall i | 0 <= i < n :: r[i] == b
  {
    seq(n, _ => b)
  }

  function Zeros(n: nat): (r: seq<byte>)
    ensures |r| == n
    ensures forall i | 0 <= i < n :: r[i] == 0
  {
    Repeat(0, n)
  }

  /** Little-endian encoding of a `uint16`, as `binary.Write` lays it out. */
  function LE16(x: uint16): (r: seq<byte>)
    ensures |r| == 2
  {
    [x % 0x100, x / 0x100]
  }

  function FromLE16(b: seq<byte>): uint16
    requires |b| == 2
  {
    b[0] as int + 0x100 * b[1] as int
  }

  /** Little-endian encoding of a `uint32`: the low half first. */
  function LE32(x: uint32): (r: seq<byte>)
    ensures |r| == 4
  {
    LE16(x % 0x1_0000) + LE16(x / 0x1_0000)
  }

  function FromLE32(b: seq<byte>): uint32
    requires |b| == 4
  {
    FromLE16(b[..2]) as int + 0x1_0000 * FromLE16(b[2..]) as int
  }

  lemma LE16RoundTrip(x: uint16)
    ensures FromLE16(LE16(x)) == x
  {
  }

  lemma FromLE16RoundTrip(b: seq<byte>)
    requires |b| == 2
    ensures LE16(FromLE16(b)) == b
  {
  }

  lemma LE32RoundTrip(x: uint32)
    ensures FromLE32(LE32(x)) == x
  {
    var lo, hi := x % 0x1_0000, x / 0x1_0000;
    var b := LE32(x);
    assert b[..2] == LE16(lo) && b[2..] == LE16(hi);
    LE16RoundTrip(lo);
    LE16RoundTrip(hi);
  }

  lemma FromLE32RoundTrip(b: seq<byte>)
    requires |b| == 4
    ensures LE32(FromLE32(b)) == b
  {
    var lo, hi := FromLE16(b[..2]), FromLE16(b[2..]);
    var x := FromLE32(b);
    assert x % 0x1_0000 == lo && x / 0x1_0000 == hi by {
      assert x == lo as int + 0x1_0000 * hi as int;
    }
    FromLE16RoundTrip(b[..2]);
    FromLE16RoundTrip(b[2..]);
    assert b == b[..2] + b[2..];
  }

  lemma ConcatAssoc<T>(a: seq<T>, b: seq<T>, c: seq<T>)
    ensures (a + b) + c == a + (b + c)
  {
  }

  /** Go's `copy(buf[off:off+len], src)`: copies `min(len, |src|)` bytes and
      leaves everything else in place. */
  function CopyInto(buf: seq<byte>, off: nat, len: nat, src: seq<byte>): (r: seq<byte>)
    requires off + len <= |buf|
    ensures |r| == |buf|
    ensures r[..off] == buf[..off]
    ensures r[off + len..] == buf[off + len..]
    ensures forall i | 0 <= i < len :: r[off + i] == if i < |src| then src[i] else buf[off + i]
    ensures |src| >= len ==> r[off..off + len] == src[..len]
  {
    var n := if |src| < len then |src| else len;
    buf[..off] + src[..n] + buf[off + n..]
  }

  /** Writing `b` at position `pos` of `data`: overwrites what is there and
      extends `data` when the write runs past its end. */
  function WriteAt(data: seq<byte>, pos: nat, b: seq<byte>): (r: seq<byte>)
    requires pos <= |data|
    ensures |r| == if pos + |b| <= |data| then |data| else pos + |b|
    ensures r[..pos] == data[..pos]
    ensures r[pos..pos + |b|] == b
    ensures pos + |b| <= |data| ==> r[pos + |b|..] == data[pos + |b|..]
  {
    data[..pos] + b + (if pos + |b| <= |data| then data[pos + |b|..] else [])
  }

  /** Writing leaves the bytes after the written range alone. */
  lemma WriteAtBeyond(data: seq<byte>, pos: nat, b: seq<byte>, i: nat, j: nat)
    requires pos + |b| <= i <= j <= |data|
    ensures WriteAt(data, pos, b)[i..j] == data[i..j]
  {
    var r := WriteAt(data, pos, b);
    assert r[pos + |b|..][i - pos - |b|..j - pos - |b|] == r[i..j];
  }

  /** Writing at the front of data at least as long replaces a prefix. */
  lemma WriteAtFront(data: seq<byte>, b: seq<byte>)
    requires |b| <= |data|
    ensures WriteAt(data, 0, b) == b + data[|b|..]
  {
  }

  /** The concatenation of a sequence of byte strings. */
  function Concat(parts: seq<seq<byte>>): (r: seq<byte>)
  {
    if |parts| == 0 then [] else Concat(parts[..|parts| - 1]) + parts[|parts| - 1]
  }
}
