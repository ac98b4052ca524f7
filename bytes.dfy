/** Bytes, the ASCII punctuation the decoder looks for, and fixed-width
    decimal digit strings: the vocabulary shared by every part of parsetime.go. */
module Bytes {

  /** A Go `byte`. */
  type byte = b: int | 0 <= b < 256

  /** How a Go call ends: with a value, with the package's parse error, or
      with a runtime panic (an index or a slice bound out of range). */
  datatype Outcome<T> = Ok(value: T) | Err | Panic

  const Space: byte := 32   // ' '
  const Plus: byte := 43    // '+'
  const Comma: byte := 44   // ','
  const Minus: byte := 45   // '-'
  const Dot: byte := 46     // '.'
  const Zero: byte := 48    // '0'
  const Nine: byte := 57    // '9'
  const Colon: byte := 58   // ':'
  const UpperT: byte := 84  // 'T'
  const UpperZ: byte := 90  // 'Z'
  const LowerZ: byte := 122 // 'z'

  /** Go's `int(c - '0')`: byte subtraction wraps modulo 256 before the
      conversion, so the result is never negative. */
  function ByteMinusZero(c: byte): byte
  {
    (c - Zero) % 256
  }

  /** The digit test the decoders write as `a < 0 || a > 9` on a wrapped
      difference: true when the byte passes it. */
  predicate WrappedDigit(c: byte)
  {
    var a := ByteMinusZero(c);
    !(a < 0 || a > 9)
  }

  predicate IsAsciiDigit(c: byte)
  {
    Zero <= c <= Nine
  }

  predicate AllDigits(ds: seq<byte>)
  {
    forall i | 0 <= i < |ds| :: IsAsciiDigit(ds[i])
  }

  /** The wrapped test accepts exactly the ten ASCII digits. */
  lemma WrappedDigitIsAscii(c: byte)
    ensures WrappedDigit(c) <==> IsAsciiDigit(c)
    ensures WrappedDigit(c) ==> ByteMinusZero(c) == c - Zero
  {
    if c < Zero {
      assert ByteMinusZero(c) == c - Zero + 256;
    }
  }

  function Pow10(n: nat): (r: nat)
    ensures r >= 1
  {
    if n == 0 then 1 else 10 * Pow10(n - 1)
  }

  /** Powers of ten add their exponents when multiplied. */
  lemma {:induction false} PowSplit(a: nat, b: nat)
    ensures Pow10(a + b) == Pow10(a) * Pow10(b)
  {
    if a > 0 {
      PowSplit(a - 1, b);
    }
  }

  /** Powers of ten grow with the exponent. */
  lemma {:induction false} PowMonotone(a: nat, b: nat)
    requires a <= b
    ensures Pow10(a) <= Pow10(b)
  {
    if a < b {
      PowMonotone(a, b - 1);
    }
  }

  /** The value of a string of decimal digits, most significant first. */
  function DecimalValue(ds: seq<byte>): (v: nat)
    requires AllDigits(ds)
    ensures v < Pow10(|ds|)
  {
    if ds == [] then 0
    else 10 * DecimalValue(ds[..|ds| - 1]) + (ds[|ds| - 1] - Zero)
  }

  /** The n-digit, zero-padded decimal form of v, as Go's `%0nd` writes it. */
  function Digits(v: nat, n: nat): (ds: seq<byte>)
    requires v < Pow10(n)
    ensures |ds| == n && AllDigits(ds)
  {
    if n == 0 then [] else Digits(v / 10, n - 1) + [Zero + v % 10]
  }

  /** Reading back a zero-padded decimal form gives the number written. */
  lemma {:induction false} DecimalValueOfDigits(v: nat, n: nat)
    requires v < Pow10(n)
    ensures DecimalValue(Digits(v, n)) == v
  {
    if n > 0 {
      var ds := Digits(v, n);
      assert ds[..n - 1] == Digits(v / 10, n - 1);
      DecimalValueOfDigits(v / 10, n - 1);
    }
  }

  /** A digit string is the zero-padded form of its own value: digit strings
      of one width and their values determine each other. */
  lemma {:induction false} DigitsOfDecimalValue(ds: seq<byte>)
    requires AllDigits(ds)
    ensures Digits(DecimalValue(ds), |ds|) == ds
  {
    if ds != [] {
      var n := |ds|;
      var front := ds[..n - 1];
      DigitsOfDecimalValue(front);
      var v := DecimalValue(ds);
      assert v / 10 == DecimalValue(front);
      assert v % 10 == ds[n - 1] - Zero;
      assert ds == front + [ds[n - 1]];
    }
  }

  /** Extending a digit string by one digit multiplies its value by ten and
      adds the digit. */
  lemma DecimalValueSnoc(ds: seq<byte>, d: byte)
    requires AllDigits(ds) && IsAsciiDigit(d)
    ensures AllDigits(ds + [d])
    ensures DecimalValue(ds + [d]) == 10 * DecimalValue(ds) + (d - Zero)
  {
    assert (ds + [d])[..|ds|] == ds;
  }

  /** The leading digit of a digit string carries the weight 10^(length-1). */
  lemma {:induction false} DecimalValueFront(s: seq<byte>)
    requires AllDigits(s) && |s| > 0
    ensures DecimalValue(s) == (s[0] - Zero) * Pow10(|s| - 1) + DecimalValue(s[1..])
    decreases |s|
  {
    if |s| > 1 {
      var front := s[..|s| - 1];
      var rest := s[1..];
      assert front[0] == s[0];
      assert front[1..] == rest[..|rest| - 1];
      assert rest[|rest| - 1] == s[|s| - 1];
      DecimalValueFront(front);
      var a, p := s[0] - Zero, Pow10(|s| - 2);
      var u, v := DecimalValue(front[1..]), s[|s| - 1] - Zero;
      assert DecimalValue(s) == 10 * (a * p + u) + v;
      assert DecimalValue(rest) == 10 * u + v;
      assert Pow10(|s| - 1) == 10 * p;
      ShiftWeight(a, p, u, v);
    }
  }

  /** Moving a factor of ten inside the leading term. */
  lemma ShiftWeight(a: int, p: int, u: int, v: int)
    ensures 10 * (a * p + u) + v == a * (10 * p) + (10 * u + v)
  {
  }

  /** A prefix of a digit string never has a larger value than the whole. */
  lemma {:induction false} DecimalValuePrefix(ds: seq<byte>, j: nat)
    requires AllDigits(ds) && j <= |ds|
    ensures DecimalValue(ds[..j]) <= DecimalValue(ds)
    decreases |ds|
  {
    if j < |ds| {
      var front := ds[..|ds| - 1];
      assert front[..j] == ds[..j];
      DecimalValuePrefix(front, j);
    } else {
      assert ds[..j] == ds;
    }
  }

  /** The end of the run of digits that starts at i: the first index at or
      after i that holds a non-digit, or |s|. */
  function DigitRunEnd(s: seq<byte>, i: nat): (e: nat)
    requires i <= |s|
    ensures i <= e <= |s|
    ensures forall j | i <= j < e :: IsAsciiDigit(s[j])
    ensures e == |s| || !IsAsciiDigit(s[e])
    decreases |s| - i
  {
    if i < |s| && IsAsciiDigit(s[i]) then DigitRunEnd(s, i + 1) else i
  }
}
