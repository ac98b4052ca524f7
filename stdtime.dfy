/** The integer parsers parsetime.go copies from Go's time package:
    isDigit, commaOrPeriod, leadingInt, atoi and parseNanoseconds. */
module StdTime {
  import opened Bytes

  /** 1<<63, the largest magnitude leadingInt lets through. */
  const TwoTo63: int := 0x8000_0000_0000_0000

  /** isDigit: false past the end; a negative index reaches `s[i]` and panics. */
  function IsDigit(s: seq<byte>, i: int): (r: Outcome<bool>)
    ensures r.Panic? <==> i < 0
    ensures r == Ok(true) <==> 0 <= i < |s| && IsAsciiDigit(s[i])
    ensures !r.Err?
  {
    if |s| <= i then Ok(false)
    else if i < 0 then Panic
    else Ok(Zero <= s[i] && s[i] <= Nine)
  }

  /** commaOrPeriod: the two fraction separators, neither of which is a
      digit or a sign. */
  predicate CommaOrPeriod(b: byte): (r: bool)
    ensures r <==> b == Dot || b == Comma
    ensures r ==> !IsAsciiDigit(b) && b != Plus && b != Minus
  {
    b == Dot || b == Comma
  }

  /** What leadingInt computes: the value of the leading run of digits and
      the bytes after it, or Err when that value is larger than 1<<63. */
  function LeadingDecimal(s: seq<byte>): Outcome<(nat, seq<byte>)>
  {
    var e := DigitRunEnd(s, 0);
    var v := DecimalValue(s[..e]);
    if v > TwoTo63 then Err else Ok((v, s[e..]))
  }

  /** A digit string followed by a non-digit splits at that non-digit. */
  lemma LeadingDecimalOfDigits(ds: seq<byte>, rest: seq<byte>)
    requires AllDigits(ds) && (rest == [] || !IsAsciiDigit(rest[0]))
    ensures DigitRunEnd(ds + rest, 0) == |ds| && (ds + rest)[..|ds|] == ds
    ensures LeadingDecimal(ds + rest) ==
            if DecimalValue(ds) > TwoTo63 then Err else Ok((DecimalValue(ds), rest))
  {
    var s := ds + rest;
    var e := DigitRunEnd(s, 0);
    assert forall j | 0 <= j < |ds| :: s[j] == ds[j];
    assert rest != [] ==> s[|ds|] == rest[0];
    assert e == |ds|;
    assert s[..|ds|] == ds && s[|ds|..] == rest;
  }

  /** leadingInt: accumulates digits into an unsigned 64-bit value and stops
      at the first non-digit, failing as soon as the value would pass 1<<63.
      Below the first check x*10+9 is below 2^64, so the accumulator never
      wraps and unbounded arithmetic is exact. */
  method LeadingInt(s: seq<byte>) returns (r: Outcome<(nat, seq<byte>)>)
    ensures r == LeadingDecimal(s)
  {
    ghost var e := DigitRunEnd(s, 0);
    var x: nat := 0;
    var i := 0;
    while i < |s|
      invariant 0 <= i <= e
      invariant x == DecimalValue(s[..i]) && x <= TwoTo63
    {
      var c := s[i];
      if c < Zero || c > Nine {
        break;
      }
      assert s[..i + 1] == s[..i] + [c];
      DecimalValueSnoc(s[..i], c);
      assert (s[..e])[..i + 1] == s[..i + 1];
      DecimalValuePrefix(s[..e], i + 1);
      if x > TwoTo63 / 10 {
        return Err;
      }
      x := x * 10 + c - Zero;
      if x > TwoTo63 {
        return Err;
      }
      i := i + 1;
    }
    return Ok((x, s[i..]));
  }

  /** The bytes atoi hands to leadingInt: s without one leading sign. */
  function Magnitude(s: seq<byte>): seq<byte>
  {
    if |s| > 0 && (s[0] == Minus || s[0] == Plus) then s[1..] else s
  }

  /** Go's `int(q)` for a uint64 q: values from 1<<63 on wrap to negatives. */
  function ToInt(q: nat): int
    requires q < 2 * TwoTo63
  {
    if q >= TwoTo63 then q - 2 * TwoTo63 else q
  }

  /** Go's `-x` on a 64-bit int: the most negative value is its own negation. */
  function NegInt(x: int): int
    requires -TwoTo63 <= x < TwoTo63
  {
    if x == -TwoTo63 then x else -x
  }

  /** atoi: an optional sign, then digits to the end. It never panics, and
      its value is a 64-bit int. */
  function Atoi(s: seq<byte>): (r: Outcome<int>)
    ensures !r.Panic?
    ensures r.Ok? ==> -TwoTo63 <= r.value < TwoTo63
  {
    var neg := |s| > 0 && s[0] == Minus;
    var t := if |s| > 0 && (s[0] == Minus || s[0] == Plus) then s[1..] else s;
    match LeadingDecimal(t)
    case Ok((q, rem)) =>
      if |rem| > 0 then Err
      else
        var x := ToInt(q);
        Ok(if neg then NegInt(x) else x)
    case _ => Err
  }

  /** atoi succeeds exactly when everything after the optional sign is a
      digit and the magnitude is at most 1<<63; it never panics, and its
      value is a 64-bit int. */
  lemma AtoiAccepts(s: seq<byte>)
    ensures Atoi(s).Ok? <==> AllDigits(Magnitude(s)) && DecimalValue(Magnitude(s)) <= TwoTo63
    ensures Atoi(s).Ok? ==> -TwoTo63 <= Atoi(s).value < TwoTo63
    ensures !Atoi(s).Panic?
  {
    var t := Magnitude(s);
    var e := DigitRunEnd(t, 0);
    assert e == |t| <==> AllDigits(t);
    assert e == |t| ==> t[..e] == t;
  }

  /** Decimal strings round-trip through atoi, for every width: unsigned and
      '+' give the value and '-' its negation, up to 1<<63. The conversion
      from uint64 is unchecked, so 1<<63 itself without '-' reads as -(1<<63). */
  lemma AtoiOfDigits(n: nat, w: nat)
    requires n < Pow10(w) && n <= TwoTo63
    ensures n < TwoTo63 ==> Atoi(Digits(n, w)) == Ok(n) && Atoi([Plus] + Digits(n, w)) == Ok(n)
    ensures n == TwoTo63 ==> Atoi(Digits(n, w)) == Ok(-TwoTo63)
    ensures Atoi([Minus] + Digits(n, w)) == Ok(-(n as int))
  {
    var ds := Digits(n, w);
    DecimalValueOfDigits(n, w);
    LeadingDecimalOfDigits(ds, []);
    assert ds + [] == ds;
    assert ([Plus] + ds)[1..] == ds;
    assert ([Minus] + ds)[1..] == ds;
    assert w > 0 ==> ds[0] != Plus && ds[0] != Minus;
  }

  /** "9223372036854775808" (1<<63 with no sign) reads as -9223372036854775808. */
  lemma AtoiWrapsAtTwoTo63()
    ensures TwoTo63 < Pow10(19)
    ensures Atoi(Digits(TwoTo63, 19)) == Ok(-TwoTo63)
  {
    PowSplit(9, 10);
    assert Pow10(9) == 1_000_000_000 && Pow10(10) == 10_000_000_000;
    AtoiOfDigits(TwoTo63, 19);
  }

  /** A decoded fraction: parseNanoseconds' value, and whether it set its
      range-error text (it does so, with a nil error, for a negative value). */
  datatype Nanos = Nanos(ns: int, outOfRange: bool)

  /** What parseNanoseconds computes. A slice beyond the length of `value`
      panics (its capacity is taken to be its length), so `value[:10]` on a
      shorter value panics just as `value[1:10]` would; after that cut,
      `value[:10][1:10]` is `value[1:10]`. */
  function Nanoseconds(value: seq<byte>, nbytes: int): Outcome<Nanos>
  {
    if |value| == 0 then Panic
    else if !CommaOrPeriod(value[0]) then Err
    else
      var n := if nbytes > 10 then 10 else nbytes;
      if n < 1 || n > |value| then Panic
      else
        var parsed := Atoi(value[1..n]);
        if !parsed.Ok? then Err
        else if parsed.value < 0 then Ok(Nanos(parsed.value, true))
        else Ok(Nanos(parsed.value * Pow10(10 - n), false))
  }

  /** parseNanoseconds: checks the separator, keeps at most nine digits,
      reads them with atoi and scales by ten once per missing digit. */
  method ParseNanoseconds(value: seq<byte>, nbytes: int) returns (r: Outcome<Nanos>)
    ensures r == Nanoseconds(value, nbytes)
  {
    if |value| == 0 {
      return Panic;
    }
    if !CommaOrPeriod(value[0]) {
      return Err;
    }
    var v, n := value, nbytes;
    if n > 10 {
      if |v| < 10 {
        return Panic;
      }
      v, n := v[..10], 10;
    }
    if n < 1 || n > |v| {
      return Panic;
    }
    assert v[1..n] == value[1..n];
    var parsed := Atoi(v[1..n]);
    if !parsed.Ok? {
      return Err;
    }
    var ns := parsed.value;
    if ns < 0 {
      return Ok(Nanos(ns, true));
    }
    var scaleDigits := 10 - n;
    ghost var x: nat := ns;
    var i := 0;
    while i < scaleDigits
      invariant 0 <= i <= scaleDigits
      invariant ns == x * Pow10(i)
    {
      TimesTenStep(x, i);
      ns := ns * 10;
      i := i + 1;
    }
    return Ok(Nanos(ns, false));
  }

  /** One more factor of ten in the scaling loop. */
  lemma TimesTenStep(x: nat, i: nat)
    ensures x * Pow10(i) * 10 == x * Pow10(i + 1)
  {
  }

  /** A separator followed by digits reads as nanoseconds: the first nine
      digits at most, scaled to nine places, always in [0, 10^9). */
  lemma NanosecondsOfDigits(sep: byte, ds: seq<byte>)
    requires CommaOrPeriod(sep) && AllDigits(ds)
    ensures var k := if |ds| > 9 then 9 else |ds|;
            Nanoseconds([sep] + ds, |ds| + 1) ==
              Ok(Nanos(DecimalValue(ds[..k]) * Pow10(9 - k), false))
    ensures var k := if |ds| > 9 then 9 else |ds|;
            DecimalValue(ds[..k]) * Pow10(9 - k) < Pow10(9)
  {
    var k := if |ds| > 9 then 9 else |ds|;
    var digits := ds[..k];
    var value := [sep] + ds;
    assert value[1..k + 1] == digits;
    var n := DecimalValue(digits);
    FractionBound(n, k);
    AtoiOfDigitString(digits);
  }

  /** atoi reads an unsigned digit string below 1<<63 as its value. */
  lemma AtoiOfDigitString(ds: seq<byte>)
    requires AllDigits(ds) && DecimalValue(ds) < TwoTo63
    ensures Atoi(ds) == Ok(DecimalValue(ds))
  {
    DigitsOfDecimalValue(ds);
    AtoiOfDigits(DecimalValue(ds), |ds|);
  }

  /** A value of at most nine digits, scaled to nine places, stays below 10^9. */
  lemma FractionBound(n: nat, k: nat)
    requires k <= 9 && n < Pow10(k)
    ensures n < TwoTo63
    ensures n * Pow10(9 - k) < Pow10(9) == 1_000_000_000
  {
    PowMonotone(k, 9);
    PowSplit(k, 9 - k);
    MulStrict(n, Pow10(k), Pow10(9 - k));
  }

  lemma MulStrict(x: nat, y: nat, z: nat)
    requires x < y && z > 0
    ensures x * z < y * z
  {
  }

  /** A value atoi returns that is not negative has at most as many digits
      as its input has bytes. */
  lemma AtoiNonNegativeBound(t: seq<byte>)
    ensures Atoi(t).Ok? && Atoi(t).value >= 0 ==> Atoi(t).value < Pow10(|t|)
  {
    var m := Magnitude(t);
    var e := DigitRunEnd(m, 0);
    var q: nat := DecimalValue(m[..e]);
    assert q < Pow10(|t|) by {
      PowMonotone(e, |t|);
    }
    assert Atoi(t).Ok? && Atoi(t).value >= 0 ==> Atoi(t).value <= q by {
      var expected: Outcome<(nat, seq<byte>)> := if q > TwoTo63 then Err else Ok((q, m[e..]));
      assert LeadingDecimal(m) == expected;
      if Atoi(t).Ok? {
        assert q <= TwoTo63 && e == |m|;
        var x := ToInt(q);
        assert Atoi(t).value == if |t| > 0 && t[0] == Minus then NegInt(x) else x;
      }
    }
  }

  /** For every input, a decoded fraction lies below one second, and the
      range text is set exactly for a negative value. At most nine bytes
      reach atoi, so the scaling loop never leaves a 64-bit int. */
  lemma NanosecondsRange(value: seq<byte>, nbytes: int)
    ensures var r := Nanoseconds(value, nbytes);
            r.Ok? ==> -TwoTo63 <= r.value.ns < Pow10(9) && (r.value.outOfRange <==> r.value.ns < 0)
  {
    var n := if nbytes > 10 then 10 else nbytes;
    if |value| > 0 && CommaOrPeriod(value[0]) && 1 <= n <= |value| {
      var t := value[1..n];
      AtoiNonNegativeBound(t);
      if Atoi(t).Ok? && Atoi(t).value >= 0 {
        FractionBound(Atoi(t).value, n - 1);
      }
    }
  }

  /** The sign atoi accepts slips into a fraction: ".-5" gives a negative
      value with the range text set, and ".+5" is read as one digit but
      scaled as two. */
  lemma NanosecondsSignQuirk()
    ensures Nanoseconds([Dot, Minus, Zero + 5], 3) == Ok(Nanos(-5, true))
    ensures Nanoseconds([Dot, Plus, Zero + 5], 3) == Ok(Nanos(50_000_000, false))
  {
    AtoiOfDigits(5, 1);
    assert Pow10(7) == 10_000_000;
    assert [Dot, Minus, Zero + 5][1..2 + 1] == [Minus] + Digits(5, 1);
    assert [Dot, Plus, Zero + 5][1..2 + 1] == [Plus] + Digits(5, 1);
  }
}
