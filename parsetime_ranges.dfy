/** What every successful parse returns, whatever its input: a header that
    is the stamp of a valid date and time, a fraction below one second (or
    one of the negative values the fast path makes of a non-digit), and a
    zone offset within a day that is a whole number of minutes. */
module ParseTimeRanges {
  import opened Bytes
  import opened Calendar
  import opened StdTime
  import opened ParseTime
  import opened ParseTimeFacts

  /** The negated scale factors: the fast path's nsec for a fraction whose
      digits fail atoiK, other than the k = 9 case, whose -1 is the very
      value that sends parse to its fallback. */
  const NegativeNanos: set<int> := {-100_000_000, -1_000_000, -100_000, -10_000, -1_000, -100, -10}

  /** An nsec a successful parse can hand on. */
  predicate NanosInRange(nsec: int)
  {
    0 <= nsec < 1_000_000_000 || nsec in NegativeNanos
  }

  /** Each fast case's scale times 10^k is at most one second. */
  lemma CaseScaleBound(j: nat)
    requires j < |FastCases|
    ensures 1 <= FastCases[j].0 <= 9 && FastCases[j].1 >= 1
    ensures Pow10(FastCases[j].0) * FastCases[j].1 <= 1_000_000_000
    ensures FastCases[j].1 == 1 || -(FastCases[j].1 as int) in NegativeNanos
  {
    assert Pow10(1) == 10 && Pow10(2) == 100 && Pow10(3) == 1_000;
    assert Pow10(4) == 10_000 && Pow10(5) == 100_000 && Pow10(6) == 1_000_000;
    assert Pow10(7) == 10_000_000 && Pow10(8) == 100_000_000 && Pow10(9) == 1_000_000_000;
  }

  /** An atoiK value times its case's scale: -scale, or below one second. */
  lemma ScaledValue(x: int, k: nat, scale: nat)
    requires x == -1 || 0 <= x < Pow10(k)
    requires scale >= 1 && Pow10(k) * scale <= 1_000_000_000
    ensures x == -1 ==> x * scale == -(scale as int)
    ensures x != -1 ==> 0 <= x * scale < 1_000_000_000
  {
    if x != -1 {
      MulStrict(x, Pow10(k), scale);
    }
  }

  /** The fast switch from case j on gives -1 (no case matched, or nine
      bytes that are not all digits), or a value in range with tzIdx inside
      s. */
  lemma {:induction false} FastSwitchRange(s: seq<byte>, j: nat)
    requires |s| > 20 && j <= |FastCases|
    ensures FastSwitch(s, j).Ok? ==>
      var (nsec, tzIdx) := FastSwitch(s, j).value;
      nsec == -1 || (NanosInRange(nsec) && 20 < tzIdx < |s|)
    decreases |FastCases| - j
  {
    if j < |FastCases| {
      var (k, scale) := FastCases[j];
      CaseScaleBound(j);
      if |s| > 20 + k && IsZoneStart(s[20 + k]) {
        ScaledValue(AtoiFixed(s[20..20 + k], k), k, scale);
      } else {
        FastSwitchRange(s, j + 1);
      }
    }
  }

  /** The fallback's val*mult is below one second: at most nine digits are
      weighted, and mult is 0 from the tenth on. */
  lemma FallbackRange(s: seq<byte>)
    requires |s| > 20
    ensures 0 <= FallbackFraction(s).0 < 1_000_000_000
    ensures 20 <= FallbackFraction(s).1 <= |s|
  {
    var e := DigitRunEnd(s, 20);
    var n := e - 20;
    if n <= 9 {
      FractionBound(DecimalValue(s[20..e]), n);
    }
  }

  /** The fraction part of parse yields -1 or an nsec in range. */
  lemma FractionRange(s: seq<byte>)
    requires |s| >= 19
    ensures Fraction(s).Ok? ==> Fraction(s).value.0 == -1 || NanosInRange(Fraction(s).value.0)
  {
    if |s| > 20 && CommaOrPeriod(s[19]) {
      FastSwitchRange(s, 0);
      FallbackRange(s);
    }
  }

  /** The zone part of parse yields an hour in 0..23 and a minute in 0..59,
      or -1 for either. */
  lemma ZoneRange(s: seq<byte>, tzIdx: nat)
    requires |s| >= 19
    ensures Zone(s, tzIdx).Ok? ==>
      var (tzH, tzM) := Zone(s, tzIdx).value;
      (tzH == -1 || 0 <= tzH <= 23) && (tzM == -1 || 0 <= tzM <= 59)
  {
  }

  /** A signed zone in whole minutes, at most 23:59 either way. */
  lemma OffsetRange(sign: int, tzH: int, tzM: int)
    requires sign == 1 || sign == -1
    requires 0 <= tzH <= 23 && 0 <= tzM <= 59
    ensures -86340 <= sign * (tzH * 3600 + tzM * 60) <= 86340
    ensures sign * (tzH * 3600 + tzM * 60) % 60 == 0
  {
    assert sign * (tzH * 3600 + tzM * 60) == 60 * (sign * (tzH * 60 + tzM));
  }

  /** The final check of parse lets through only an nsec in range, a sign
      of +1 or -1 and an hour and minute in range, and builds the offset
      from them. */
  lemma VerdictSound(dt: DateTime, nsec: int, tzH: int, tzM: int, sign: int)
    requires nsec == -1 || NanosInRange(nsec)
    requires (tzH == -1 || 0 <= tzH <= 23) && (tzM == -1 || 0 <= tzM <= 59)
    requires sign == 1 || sign == -1 || sign == 0
    ensures var v := Verdict(dt, nsec, tzH, tzM, sign);
      v.Ok? ==>
        v.value.dt == dt && v.value.nsec == nsec && NanosInRange(nsec) &&
        0 <= tzH <= 23 && 0 <= tzM <= 59 && (sign == 1 || sign == -1) &&
        v.value.tzOffset == sign * (tzH * 3600 + tzM * 60) &&
        -86340 <= v.value.tzOffset <= 86340 && v.value.tzOffset % 60 == 0
  {
    if nsec != -1 && tzH != -1 && tzM != -1 && sign != 0 {
      OffsetRange(sign, tzH, tzM);
    }
  }

  /** A tail that succeeds keeps the fields, has nsec in range, and found a
      sign of +1 or -1, an hour in 0..23 and a minute in 0..59 whose signed
      sum in seconds is the offset: within a day, in whole minutes. */
  lemma TailSound(s: seq<byte>, dt: DateTime)
    requires |s| >= 19
    ensures Tail(s, dt).Ok? ==>
      var r := Tail(s, dt).value;
      r.dt == dt && NanosInRange(r.nsec) && -86340 <= r.tzOffset <= 86340 && r.tzOffset % 60 == 0
    ensures Tail(s, dt).Ok? ==>
      Fraction(s).Ok? && Zone(s, Fraction(s).value.1).Ok? &&
      var (tzH, tzM) := Zone(s, Fraction(s).value.1).value;
      0 <= tzH <= 23 && 0 <= tzM <= 59 && (ZoneSign(s) == 1 || ZoneSign(s) == -1) &&
      Tail(s, dt).value.tzOffset == ZoneSign(s) * (tzH * 3600 + tzM * 60)
  {
    var fraction := Fraction(s);
    if fraction.Ok? {
      var (nsec, tzIdx) := fraction.value;
      var zone := Zone(s, tzIdx);
      if zone.Ok? {
        var (tzH, tzM) := zone.value;
        FractionRange(s);
        ZoneRange(s, tzIdx);
        TailOf(s, dt, nsec, tzIdx, tzH, tzM);
        VerdictSound(dt, nsec, tzH, tzM, ZoneSign(s));
      }
    }
  }

  /** Whatever the input, a successful parse read a header that is the
      stamp of its own valid date and time, found nsec in range, and an
      offset within a day in whole minutes. */
  lemma DecodeSound(s: seq<byte>)
    ensures Decode(s).Ok? ==>
      var r := Decode(s).value;
      HeaderOk(s) && InDigitRange(r.dt) && ValidDateTime(r.dt) && s[..19] == Stamp(r.dt, s[10]) &&
      NanosInRange(r.nsec) && -86340 <= r.tzOffset <= 86340 && r.tzOffset % 60 == 0
  {
    if HeaderOk(s) {
      DecodeByFields(s);
      if DateFields(s).Ok? {
        DateFieldsSound(s);
        TailSound(s, DateFields(s).value);
      }
    }
  }
}
