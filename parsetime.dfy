/** The timestamp decoder of parsetime.go: `parse` and the fixed-width digit
    readers it is built from. A byte string shaped like
    `YYYY-MM-DD[T| ]HH:MM:SS[.frac][Z|±HH:MM|±HHMM]` is taken apart at fixed
    offsets into the decoded tuple (year, month, day, hour, minute, second,
    nanoseconds, zone offset in seconds). */
module ParseTime {
  import opened Bytes
  import opened Calendar
  import opened StdTime

  /** Go's `a0*1eN-1 + ... + aN-1*1` over wrapped byte differences, written
      from the most significant byte down, as atoi1..atoi9 spell it out. */
  function PlaceSum(s: seq<byte>): int
  {
    if s == [] then 0 else ByteMinusZero(s[0]) * Pow10(|s| - 1) + PlaceSum(s[1..])
  }

  /** On digits the place-value sum is the decimal value. */
  lemma {:induction false} PlaceSumIsDecimal(s: seq<byte>)
    ensures AllDigits(s) ==> PlaceSum(s) == DecimalValue(s)
  {
    if s != [] && AllDigits(s) {
      PlaceSumIsDecimal(s[1..]);
      WrappedDigitIsAscii(s[0]);
      DecimalValueFront(s);
    }
  }

  /** The wrapped test holds for every byte exactly when all are digits. */
  lemma AllWrappedDigits(s: seq<byte>)
    ensures (forall i | 0 <= i < |s| :: WrappedDigit(s[i])) <==> AllDigits(s)
  {
    forall i | 0 <= i < |s|
      ensures WrappedDigit(s[i]) <==> IsAsciiDigit(s[i])
    {
      WrappedDigitIsAscii(s[i]);
    }
  }

  /** atoiN (N = n): the value of the first n bytes when every one of them
      is an ASCII digit, and -1 otherwise. */
  function AtoiFixed(s: seq<byte>, n: nat): (x: int)
    requires 1 <= n <= 9 && n <= |s|
    ensures x == -1 || 0 <= x < Pow10(n)
    ensures x != -1 <==> AllDigits(s[..n])
    ensures x != -1 ==> x == DecimalValue(s[..n])
  {
    var t := s[..n];
    AllWrappedDigits(t);
    PlaceSumIsDecimal(t);
    if forall i | 0 <= i < n :: WrappedDigit(t[i]) then PlaceSum(t) else -1
  }

  /** atoi2MinMax: the two-digit value when both bytes are ASCII digits and
      the value lies in [min, max], and -1 otherwise. */
  function Atoi2MinMax(s: seq<byte>, min: int, max: int): (x: int)
    requires |s| >= 2
    ensures x == (if AllDigits(s[..2]) && min <= DecimalValue(s[..2]) <= max
                  then DecimalValue(s[..2]) else -1)
  {
    WrappedDigitIsAscii(s[0]);
    WrappedDigitIsAscii(s[1]);
    assert s[..2] == [s[0]] + [s[1]];
    assert ([s[0]] + [s[1]])[..1] == [s[0]];
    var a0, a1 := ByteMinusZero(s[0]), ByteMinusZero(s[1]);
    if a0 < 0 || a0 > 9 || a1 < 0 || a1 > 9 then -1
    else
      var x := a0 * 10 + a1;
      if x < min || max < x then -1 else x
  }

  /** The six fields of the fixed-offset header. */
  datatype DateTime = DateTime(year: int, month: int, day: int, hour: int, minute: int, second: int)

  /** The tuple parse hands to time.Date: the date and time, the fraction in
      nanoseconds and the zone offset in seconds east of UTC. */
  datatype Fields = Fields(dt: DateTime, nsec: int, tzOffset: int)

  predicate IsSign(b: byte)
  {
    b == Plus || b == Minus
  }

  predicate IsZ(b: byte)
  {
    b == LowerZ || b == UpperZ
  }

  /** A byte the fraction fast path takes for the start of a zone. */
  predicate IsZoneStart(b: byte)
  {
    IsSign(b) || IsZ(b)
  }

  /** The delimiter test of the first line of parse. */
  predicate HeaderOk(s: seq<byte>)
  {
    |s| >= 19 && s[4] == Minus && s[7] == Minus && s[13] == Colon && s[16] == Colon &&
    (s[10] == UpperT || s[10] == Space)
  }

  /** The six header fields. daysIn is consulted for the day's bound before
      any field is checked, so an invalid month panics there. */
  function DateFields(s: seq<byte>): Outcome<DateTime>
    requires |s| >= 19
  {
    var year := AtoiFixed(s[0..4], 4);
    var month := Atoi2MinMax(s[5..7], 1, 12);
    var days := DaysIn(month, year);
    if days.Panic? then Panic
    else
      var day := Atoi2MinMax(s[8..10], 1, days.value);
      var hour := Atoi2MinMax(s[11..13], 0, 23);
      var minute := Atoi2MinMax(s[14..16], 0, 59);
      var second := Atoi2MinMax(s[17..19], 0, 59);
      if year == -1 || month == -1 || day == -1 || hour == -1 || minute == -1 || second == -1 then Err
      else Ok(DateTime(year, month, day, hour, minute, second))
  }

  /** The fast path's cases in the order parse tries them: k fraction digits
      ending where byte 20+k starts a zone, and the factor atoiK's value is
      multiplied by. */
  const FastCases: seq<(nat, nat)> := [
    (3, 1_000_000), (6, 1_000), (9, 1), (1, 100_000_000), (2, 1_000_000),
    (4, 100_000), (5, 10_000), (7, 100), (8, 10)
  ]

  /** The first-match switch of the fast path, from case j on: each guard
      reads byte 20+k as soon as the length exceeds 19+k, which is one past
      the end when the length is exactly 20+k. No match gives nsec -1. The
      result is (nsec, tzIdx). */
  function FastSwitch(s: seq<byte>, j: nat): Outcome<(int, nat)>
    requires |s| > 20 && j <= |FastCases|
    decreases |FastCases| - j
  {
    if j == |FastCases| then Ok((-1, 19))
    else
      var k := FastCases[j].0;
      if |s| > 19 + k && |s| == 20 + k then Panic
      else if |s| > 19 + k && IsZoneStart(s[20 + k]) then
        Ok((AtoiFixed(s[20..20 + k], k) * FastCases[j].1, 20 + k))
      else FastSwitch(s, j + 1)
  }

  /** Go's `mult` after n rounds of `mult /= 10` from 1e9. */
  function Mult(n: nat): nat
  {
    if n <= 9 then Pow10(9 - n) else 0
  }

  /** The scanning fallback: the run of digits from byte 20 on, as
      val*mult, and the index of the first byte after it. */
  function FallbackFraction(s: seq<byte>): (int, nat)
    requires |s| > 20
  {
    var e := DigitRunEnd(s, 20);
    (DecimalValue(s[20..e]) * Mult(e - 20), e)
  }

  /** The fraction part of parse: (nsec, tzIdx). Without a separator at byte
      19 (or with nothing after it) the fraction is 0 and the zone is looked
      for at 19. */
  function Fraction(s: seq<byte>): Outcome<(int, nat)>
    requires |s| >= 19
  {
    if |s| > 20 && CommaOrPeriod(s[19]) then
      match FastSwitch(s, 0)
      case Ok((nsec, tzIdx)) =>
        if nsec == -1 && IsAsciiDigit(s[20]) then Ok(FallbackFraction(s))
        else Ok((nsec, tzIdx))
      case _ => Panic
    else Ok((0, 19))
  }

  /** The zone switch that looks at the end of the input: (tzH, tzM), where
      -1 in either asks for the forward fallback. ":" three from the end
      without a sign six from the end leaves both at 0. */
  function SuffixZone(s: seq<byte>): (int, int)
    requires |s| >= 19
  {
    var n := |s|;
    if s[n - 3] == Colon then
      (if IsSign(s[n - 6]) then (Atoi2MinMax(s[n - 5..n - 3], 0, 23), Atoi2MinMax(s[n - 2..n], 0, 59))
       else (0, 0))
    else if IsSign(s[n - 4]) then (Atoi2MinMax(s[n - 4..n - 2], 0, 23), Atoi2MinMax(s[n - 2..n], 0, 59))
    else if IsSign(s[n - 2]) then (Atoi2MinMax(s[n - 2..n], 0, 23), 0)
    else if IsZ(s[n - 1]) then (0, 0)
    else (-1, -1)
  }

  /** The forward zone fallback from tzIdx: a sign, two hour digits, an
      optional ':' and two minute digits. It reads s[tzIdx] and s[tzIdx+3]
      and slices up to the minutes, each of which panics past the end. */
  function ForwardZone(s: seq<byte>, tzIdx: nat): Outcome<(int, int)>
  {
    if tzIdx >= |s| then Panic
    else if !IsSign(s[tzIdx]) then Err
    else if tzIdx + 3 > |s| then Panic
    else
      var h := Atoi2MinMax(s[tzIdx + 1..tzIdx + 3], 0, 23);
      if tzIdx + 3 >= |s| then Panic
      else
        var m0 := if s[tzIdx + 3] == Colon then tzIdx + 4 else tzIdx + 3;
        if m0 + 2 > |s| then Panic else Ok((h, Atoi2MinMax(s[m0..m0 + 2], 0, 59)))
  }

  /** (tzH, tzM): the suffix switch, then the forward fallback when it left -1. */
  function Zone(s: seq<byte>, tzIdx: nat): Outcome<(int, int)>
    requires |s| >= 19
  {
    var (h, m) := SuffixZone(s);
    if h == -1 || m == -1 then ForwardZone(s, tzIdx) else Ok((h, m))
  }

  /** tzSign: a sign six or five from the end, else 'z' or 'Z' at the end for
      +1, else 0. */
  function ZoneSign(s: seq<byte>): int
    requires |s| >= 19
  {
    var n := |s|;
    if s[n - 6] == Plus || s[n - 5] == Plus then 1
    else if s[n - 6] == Minus || s[n - 5] == Minus then -1
    else if IsZ(s[n - 1]) then 1
    else 0
  }

  /** Everything parse does after the header fields: the fraction, the zone,
      the final -1/0 check and the offset. */
  function Tail(s: seq<byte>, dt: DateTime): Outcome<Fields>
    requires |s| >= 19
  {
    var fraction := Fraction(s);
    if !fraction.Ok? then Panic
    else
      var nsec := fraction.value.0;
      var zone := Zone(s, fraction.value.1);
      if zone.Panic? then Panic
      else if zone.Err? then Err
      else
        var tzH, tzM, tzSign := zone.value.0, zone.value.1, ZoneSign(s);
        if nsec == -1 || tzH == -1 || tzM == -1 || tzSign == 0 then Err
        else Ok(Fields(dt, nsec, tzSign * (tzH * 3600 + tzM * 60)))
  }

  /** What parse computes for the bytes s. A success passed the delimiter
      check and carries the header's own fields. */
  function Decode(s: seq<byte>): (r: Outcome<Fields>)
    ensures r.Ok? ==> HeaderOk(s) && DateFields(s) == Ok(r.value.dt)
  {
    if !HeaderOk(s) then Err
    else
      match DateFields(s)
      case Ok(dt) => Tail(s, dt)
      case Err => Err
      case Panic => Panic
  }

  /** parse, over the bytes of its input: the header checks, the fields, the
      nine-case fast path for the fraction and its scanning fallback, the
      suffix zone switch and its forward fallback, the sign, and the final
      check. A read past the end of s is a Panic. */
  method Parse(s: seq<byte>) returns (r: Outcome<Fields>)
    ensures r == Decode(s)
  {
    if |s| < 19 || s[4] != Minus || s[7] != Minus || s[13] != Colon || s[16] != Colon ||
       (s[10] != UpperT && s[10] != Space) {
      return Err;
    }
    var fields := ReadFields(s);
    if !fields.Ok? {
      return if fields.Err? then Err else Panic;
    }
    r := ScanTail(s, fields.value);
  }

  /** The rest of parse once the header fields are read: the fraction, the
      zone, its sign, and the final check on nsec, tzH, tzM and tzSign. */
  method ScanTail(s: seq<byte>, dt: DateTime) returns (r: Outcome<Fields>)
    requires |s| >= 19
    ensures r == Tail(s, dt)
  {
    var sLen := |s|;
    var tzSign, tzH, tzM, tzOffset := 0, 0, 0, 0;
    var fraction := ScanFraction(s);
    if !fraction.Ok? {
      return Panic;
    }
    var nsec, tzIdx := fraction.value.0, fraction.value.1;

    var zone := ZoneScan(s, tzIdx);
    if !zone.Ok? {
      return if zone.Err? then Err else Panic;
    }
    tzH, tzM := zone.value.0, zone.value.1;

    if s[sLen - 6] == Plus || s[sLen - 5] == Plus {
      tzSign := 1;
    } else if s[sLen - 6] == Minus || s[sLen - 5] == Minus {
      tzSign := -1;
    } else if s[sLen - 1] == LowerZ || s[sLen - 1] == UpperZ {
      tzSign := 1;
    } else {
      tzSign := 0;
    }
    assert tzSign == ZoneSign(s);

    if nsec == -1 || tzH == -1 || tzM == -1 || tzSign == 0 {
      return Err;
    }
    tzOffset := tzSign * (tzH * 3600 + tzM * 60);
    return Ok(Fields(dt, nsec, tzOffset));
  }

  /** The fraction part of parse: the fast path when byte 19 is '.' or ',',
      and the scanning fallback when the fast path found no zone and byte 20
      is a digit. The result is (nsec, tzIdx). */
  method ScanFraction(s: seq<byte>) returns (r: Outcome<(int, nat)>)
    requires |s| >= 19
    ensures r == Fraction(s)
  {
    var sLen := |s|;
    var nsec := 0;
    var tzIdx: nat := 19;
    if sLen > 20 && (s[19] == Dot || s[19] == Comma) {
      var fast := FastPath(s);
      if !fast.Ok? {
        return Panic;
      }
      nsec, tzIdx := fast.value.0, fast.value.1;
      if nsec == -1 && Zero <= s[20] && s[20] <= Nine {
        nsec, tzIdx := FractionScan(s);
      }
    }
    return Ok((nsec, tzIdx));
  }

  /** The field reads of parse: year, month, the month's length, day, hour,
      minute and second, then the -1 check. */
  method ReadFields(s: seq<byte>) returns (r: Outcome<DateTime>)
    requires |s| >= 19
    ensures r == DateFields(s)
  {
    var year := AtoiFixed(s[0..4], 4);
    var month := Atoi2MinMax(s[5..7], 1, 12);
    var days := DaysIn(month, year);
    if days.Panic? {
      return Panic;
    }
    var day := Atoi2MinMax(s[8..10], 1, days.value);
    var hour := Atoi2MinMax(s[11..13], 0, 23);
    var min := Atoi2MinMax(s[14..16], 0, 59);
    var sec := Atoi2MinMax(s[17..19], 0, 59);
    if year == -1 || month == -1 || day == -1 || hour == -1 || min == -1 || sec == -1 {
      return Err;
    }
    return Ok(DateTime(year, month, day, hour, min, sec));
  }

  /** The fast path of parse: the first-match switch over the nine places a
      zone may start after k fraction digits. Each case reads s[20+k] once
      the length exceeds 19+k, so a length of exactly 20+k is the panic. */
  method FastPath(s: seq<byte>) returns (r: Outcome<(int, nat)>)
    requires |s| > 20
    ensures r == FastSwitch(s, 0)
  {
    var sLen := |s|;
    if sLen == 23 {
      return Panic;
    } else if sLen > 22 && IsZoneStart(s[23]) {
      return Ok((AtoiFixed(s[20..23], 3) * 1_000_000, 23));
    } else if sLen == 26 {
      return Panic;
    } else if sLen > 25 && IsZoneStart(s[26]) {
      return Ok((AtoiFixed(s[20..26], 6) * 1_000, 26));
    } else if sLen == 29 {
      return Panic;
    } else if sLen > 28 && IsZoneStart(s[29]) {
      return Ok((AtoiFixed(s[20..29], 9), 29));
    } else if sLen == 21 {
      return Panic;
    } else if sLen > 20 && IsZoneStart(s[21]) {
      return Ok((AtoiFixed(s[20..21], 1) * 100_000_000, 21));
    } else if sLen == 22 {
      return Panic;
    } else if sLen > 21 && IsZoneStart(s[22]) {
      return Ok((AtoiFixed(s[20..22], 2) * 1_000_000, 22));
    } else if sLen == 24 {
      return Panic;
    } else if sLen > 23 && IsZoneStart(s[24]) {
      return Ok((AtoiFixed(s[20..24], 4) * 100_000, 24));
    } else if sLen == 25 {
      return Panic;
    } else if sLen > 24 && IsZoneStart(s[25]) {
      return Ok((AtoiFixed(s[20..25], 5) * 10_000, 25));
    } else if sLen == 27 {
      return Panic;
    } else if sLen > 26 && IsZoneStart(s[27]) {
      return Ok((AtoiFixed(s[20..27], 7) * 100, 27));
    } else if sLen == 28 {
      return Panic;
    } else if sLen > 27 && IsZoneStart(s[28]) {
      return Ok((AtoiFixed(s[20..28], 8) * 10, 28));
    } else {
      return Ok((-1, 19));
    }
  }

  /** The scanning fallback loop of parse: accumulates the digits from byte
      20 on into val while dividing mult by ten, and stops at the first
      non-digit. */
  method FractionScan(s: seq<byte>) returns (nsec: int, tzIdx: nat)
    requires |s| > 20
    ensures (nsec, tzIdx) == FallbackFraction(s)
  {
    var sLen := |s|;
    ghost var e := DigitRunEnd(s, 20);
    var val := 0;
    var mult := 1_000_000_000;
    tzIdx := 20;
    while tzIdx < sLen
      invariant 20 <= tzIdx <= e
      invariant AllDigits(s[20..tzIdx])
      invariant val == DecimalValue(s[20..tzIdx])
      invariant mult == Mult(tzIdx - 20)
    {
      var c := s[tzIdx];
      if c >= Zero && c <= Nine {
        assert s[20..tzIdx + 1] == s[20..tzIdx] + [c];
        DecimalValueSnoc(s[20..tzIdx], c);
        MultStep(tzIdx - 20);
        val := val * 10 + (c - Zero);
        mult := mult / 10;
      } else {
        break;
      }
      tzIdx := tzIdx + 1;
    }
    nsec := val * mult;
  }

  /** The zone part of parse: the switch on the last bytes, then, when it
      left -1 in tzH or tzM, the forward fallback from tzIdx, whose reads
      and slices panic past the end of s. */
  method ZoneScan(s: seq<byte>, tzIdx: nat) returns (r: Outcome<(int, int)>)
    requires |s| >= 19
    ensures r == Zone(s, tzIdx)
  {
    var sLen := |s|;
    var tzH, tzM := 0, 0;
    if s[sLen - 3] == Colon {
      if s[sLen - 6] == Plus || s[sLen - 6] == Minus {
        tzH := Atoi2MinMax(s[sLen - 5..sLen - 3], 0, 23);
        tzM := Atoi2MinMax(s[sLen - 2..sLen], 0, 59);
      }
    } else if s[sLen - 4] == Plus || s[sLen - 4] == Minus {
      tzH := Atoi2MinMax(s[sLen - 4..sLen - 2], 0, 23);
      tzM := Atoi2MinMax(s[sLen - 2..sLen], 0, 59);
    } else if s[sLen - 2] == Plus || s[sLen - 2] == Minus {
      tzH := Atoi2MinMax(s[sLen - 2..sLen], 0, 23);
      tzM := 0;
    } else if s[sLen - 1] == LowerZ || s[sLen - 1] == UpperZ {
      tzH, tzM := 0, 0;
    } else {
      tzH, tzM := -1, -1;
    }
    assert (tzH, tzM) == SuffixZone(s);
    if tzH == -1 || tzM == -1 {
      if tzIdx >= sLen {
        return Panic;
      }
      if s[tzIdx] != Plus && s[tzIdx] != Minus {
        return Err;
      }
      if tzIdx + 3 > sLen {
        return Panic;
      }
      tzH := Atoi2MinMax(s[tzIdx + 1..tzIdx + 3], 0, 23);
      var tzmIdx := 3;
      if tzIdx + 3 >= sLen {
        return Panic;
      }
      if s[tzIdx + 3] == Colon {
        tzmIdx := tzmIdx + 1;
      }
      if tzIdx + tzmIdx + 2 > sLen {
        return Panic;
      }
      tzM := Atoi2MinMax(s[tzIdx + tzmIdx..tzIdx + tzmIdx + 2], 0, 59);
      assert ForwardZone(s, tzIdx) == Ok((tzH, tzM));
    }
    return Ok((tzH, tzM));
  }

  /** One more round of `mult /= 10`. */
  lemma MultStep(n: nat)
    ensures Mult(n) / 10 == Mult(n + 1)
  {
    if n < 9 {
      assert Pow10(9 - n) == 10 * Pow10(9 - (n + 1));
    }
  }
}
