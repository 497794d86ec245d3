/** Decimal text for integers, as Go's `strconv.FormatInt(v, 10)` and
    `strconv.ParseInt(s, 10, 64)` produce and accept it, plus the floating-point
    conversions, which this model treats as given functions. */
module Strconv {
  import opened Bytes
  import opened Wrappers

  const INT64_LIMIT: nat := 0x8000_0000_0000_0000

  predicate IsDigit(b: byte)
  {
    DIGIT_0 <= b <= DIGIT_0 + 9
  }

  predicate AllDigits(s: seq<byte>)
  {
    forall i | 0 <= i < |s| :: IsDigit(s[i])
  }

  /** The number a string of decimal digits denotes (leading zeros allowed). */
  function DigitsValue(s: seq<byte>): nat
    requires AllDigits(s)
  {
    if |s| == 0 then 0 else DigitsValue(s[..|s| - 1]) * 10 + (s[|s| - 1] - DIGIT_0)
  }

  /** The shortest decimal digits of `n`: one digit for `n < 10`, never a
      leading zero except for zero itself. */
  function Digits(n: nat): (r: seq<byte>)
    ensures AllDigits(r)
    ensures |r| == 1 <==> n < 10
    ensures |r| >= 1 && (n > 0 ==> r[0] != DIGIT_0)
  {
    if n < 10 then [DIGIT_0 + n] else Digits(n / 10) + [DIGIT_0 + n % 10]
  }

  /** `n` as exactly `w` digits, zero-padded on the left (the low `w` digits
      when `n` has more). */
  function FixedDigits(n: nat, w: nat): (r: seq<byte>)
    ensures |r| == w && AllDigits(r)
  {
    if w == 0 then [] else FixedDigits(n / 10, w - 1) + [DIGIT_0 + n % 10]
  }

  function Pow10(k: nat): (p: nat)
    ensures p >= 1
  {
    if k == 0 then 1 else 10 * Pow10(k - 1)
  }

  lemma {:induction false} DigitsValueOfDigits(n: nat)
    ensures DigitsValue(Digits(n)) == n
    decreases n
  {
    var r := Digits(n);
    if n >= 10 {
      DigitsValueOfDigits(n / 10);
      assert r[..|r| - 1] == Digits(n / 10);
    }
  }

  /** `w` digits denote a number below 10^w. */
  lemma {:induction false} DigitsValueBound(s: seq<byte>)
    requires AllDigits(s)
    ensures DigitsValue(s) < Pow10(|s|)
    decreases |s|
  {
    if |s| > 0 {
      DigitsValueBound(s[..|s| - 1]);
    }
  }

  /** Reading `w` zero-padded digits gives back any `n` below 10^w. */
  lemma {:induction false} FixedDigitsValue(n: nat, w: nat)
    requires n < Pow10(w)
    ensures DigitsValue(FixedDigits(n, w)) == n
    decreases w
  {
    if w > 0 {
      var r := FixedDigits(n, w);
      assert r[..w - 1] == FixedDigits(n / 10, w - 1);
      FixedDigitsValue(n / 10, w - 1);
    }
  }

  /** Printing the value of a digit string at its own width gives the string
      back, leading zeros included. */
  lemma {:induction false} FixedDigitsOfValue(s: seq<byte>)
    requires AllDigits(s)
    ensures FixedDigits(DigitsValue(s), |s|) == s
    decreases |s|
  {
    if |s| > 0 {
      var init := s[..|s| - 1];
      var v := DigitsValue(s);
      assert v / 10 == DigitsValue(init);
      assert v % 10 == s[|s| - 1] - DIGIT_0;
      FixedDigitsOfValue(init);
      assert s == init + [s[|s| - 1]];
    }
  }

  /** strconv.FormatInt(v, 10): a minus sign for negatives, never a plus. */
  function FormatInt(v: int): (r: seq<byte>)
    ensures |r| >= 1
    ensures r[0] == MINUS <==> v < 0
    ensures AllDigits(if v < 0 then r[1..] else r)
  {
    if v < 0 then [MINUS] + Digits(-v) else Digits(v)
  }

  /** The digits after an optional sign. */
  function Unsigned(s: seq<byte>): seq<byte>
  {
    if |s| > 0 && (s[0] == PLUS || s[0] == MINUS) then s[1..] else s
  }

  /** strconv.ParseInt(s, 10, 64): exactly an optional sign followed by one
      or more decimal digits, whose value lies in the int64 range. Every
      failure (bad syntax or out of range) is `InvalidNumber`. */
  function ParseInt(s: seq<byte>): (r: Result<int64>)
    ensures r.Ok? ==> |Unsigned(s)| > 0 && AllDigits(Unsigned(s))
    ensures r.Ok? ==> (r.value < 0 ==> s[0] == MINUS)
  {
    var body := Unsigned(s);
    if |body| == 0 || !AllDigits(body) then Err(InvalidNumber)
    else
      var n := DigitsValue(body);
      if s[0] == MINUS then
        (if n <= INT64_LIMIT then Ok(-(n as int)) else Err(InvalidNumber))
      else
        (if n < INT64_LIMIT then Ok(n) else Err(InvalidNumber))
  }

  /** FormatInt and ParseInt are inverse on the whole int64 range. */
  lemma ParseFormatInt(v: int64)
    ensures ParseInt(FormatInt(v)) == Ok(v)
  {
    if v < 0 {
      ParseFormatNegative(v);
    } else {
      ParseFormatNonNegative(v);
    }
  }

  lemma ParseFormatNegative(v: int64)
    requires v < 0
    ensures ParseInt(FormatInt(v)) == Ok(v)
  {
    var m: nat := -(v as int);
    var d := Digits(m);
    var s := [MINUS] + d;
    assert FormatInt(v) == s;
    assert Unsigned(s) == d;
    DigitsValueOfDigits(m);
    assert DigitsValue(d) == m <= INT64_LIMIT;
  }

  lemma ParseFormatNonNegative(v: int64)
    requires v >= 0
    ensures ParseInt(FormatInt(v)) == Ok(v)
  {
    var d := Digits(v);
    assert FormatInt(v) == d;
    assert IsDigit(d[0]);
    assert Unsigned(d) == d;
    DigitsValueOfDigits(v);
    assert DigitsValue(d) == v < INT64_LIMIT;
  }

  /** A leading zero digit does not change the value read. */
  lemma {:induction false} DigitsValueLeadingZero(s: seq<byte>)
    requires AllDigits(s)
    ensures AllDigits([DIGIT_0] + s) && DigitsValue([DIGIT_0] + s) == DigitsValue(s)
    decreases |s|
  {
    var z := [DIGIT_0] + s;
    if |s| > 0 {
      assert z[..|z| - 1] == [DIGIT_0] + s[..|s| - 1];
      DigitsValueLeadingZero(s[..|s| - 1]);
    } else {
      assert z[..0] == [];
    }
  }

  /** ParseInt ignores leading zeros and an explicit plus sign. */
  lemma ParseIntLeadingZeroAndPlus(d: seq<byte>)
    requires |d| > 0 && AllDigits(d)
    ensures ParseInt([DIGIT_0] + d) == ParseInt(d)
    ensures ParseInt([PLUS] + d) == ParseInt(d)
  {
    DigitsValueLeadingZero(d);
    assert Unsigned([DIGIT_0] + d) == [DIGIT_0] + d;
    assert Unsigned([PLUS] + d) == d;
  }

  /** An IEEE-754 double, kept as its bit pattern: the model never does
      floating-point arithmetic. */
  datatype Float = Float(bits: bv64)

  /** The floating-point conversions the codec calls but that this model does
      not define: `strconv.FormatFloat(x, 'f', dec, 64)`, `strconv.ParseFloat(s, 64)`
      and the `float64(int64)` conversion used when an integer is written to a
      field with decimals. */
  datatype Floats = Floats(
    format: (Float, nat) -> seq<byte>,
    parse: seq<byte> -> Result<Float>,
    fromInt: int64 -> Float)
}
