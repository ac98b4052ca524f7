/** What parse does with the inputs it is meant for, and with the ones it
    gets wrong: the header fields of a well-formed prefix, the fraction fast
    path per digit count, and each zone form. */
module ParseTimeFacts {
  import opened Bytes
  import opened Calendar
  import opened StdTime
  import opened ParseTime

  /** Fields small enough to print in the header's fixed widths. */
  predicate InDigitRange(dt: DateTime)
  {
    0 <= dt.year <= 9999 && 0 <= dt.month <= 99 && 0 <= dt.day <= 99 &&
    0 <= dt.hour <= 99 && 0 <= dt.minute <= 99 && 0 <= dt.second <= 99
  }

  /** A date and time of the proleptic Gregorian calendar with a four-digit
      year. */
  predicate ValidDateTime(dt: DateTime)
  {
    0 <= dt.year <= 9999 && 1 <= dt.month <= 12 &&
    1 <= dt.day <= MonthLength(dt.month, GregorianLeap(dt.year)) &&
    0 <= dt.hour <= 23 && 0 <= dt.minute <= 59 && 0 <= dt.second <= 59
  }

  /** `YYYY-MM-DD?HH:MM:SS` with ? the date/time separator. */
  function Stamp(dt: DateTime, sep: byte): (s: seq<byte>)
    requires InDigitRange(dt)
    ensures |s| == 19
  {
    Digits(dt.year, 4) + [Minus] + Digits(dt.month, 2) + [Minus] + Digits(dt.day, 2) + [sep] +
    Digits(dt.hour, 2) + [Colon] + Digits(dt.minute, 2) + [Colon] + Digits(dt.second, 2)
  }

  /** Where the parts of `a x b y c` sit, for single bytes x and y. */
  lemma FiveParts(a: seq<byte>, x: byte, b: seq<byte>, y: byte, c: seq<byte>)
    ensures var s := a + [x] + b + [y] + c;
      s[..|a|] == a && s[|a|] == x && s[|a| + 1..|a| + 1 + |b|] == b &&
      s[|a| + 1 + |b|] == y && s[|a| + 2 + |b|..] == c
  {
  }

  /** Where each field of a stamp sits. */
  lemma StampLayout(dt: DateTime, sep: byte)
    requires InDigitRange(dt)
    ensures var s := Stamp(dt, sep);
      s[0..4] == Digits(dt.year, 4) && s[4] == Minus && s[5..7] == Digits(dt.month, 2) &&
      s[7] == Minus && s[8..10] == Digits(dt.day, 2) && s[10] == sep &&
      s[11..13] == Digits(dt.hour, 2) && s[13] == Colon && s[14..16] == Digits(dt.minute, 2) &&
      s[16] == Colon && s[17..19] == Digits(dt.second, 2)
  {
    var y, mo, d := Digits(dt.year, 4), Digits(dt.month, 2), Digits(dt.day, 2);
    var h, mi, se := Digits(dt.hour, 2), Digits(dt.minute, 2), Digits(dt.second, 2);
    var date := y + [Minus] + mo + [Minus] + d;
    var time := h + [Colon] + mi + [Colon] + se;
    var s := date + [sep] + time;
    assert s == Stamp(dt, sep);
    assert date[0..4] == y && date[4] == Minus && date[5..7] == mo && date[7] == Minus && date[8..10] == d by {
      FiveParts(y, Minus, mo, Minus, d);
    }
    assert time[0..2] == h && time[2] == Colon && time[3..5] == mi && time[5] == Colon && time[6..8] == se by {
      FiveParts(h, Colon, mi, Colon, se);
    }
    assert s[..10] == date && s[10] == sep && s[11..] == time;
    assert s[0..4] == date[0..4] && s[5..7] == date[5..7] && s[8..10] == date[8..10];
    assert s[11..13] == time[0..2] && s[14..16] == time[3..5] && s[17..19] == time[6..8];
  }

  /** atoiN reads back an N-digit zero-padded number. */
  lemma AtoiFixedOfDigits(v: nat, n: nat)
    requires 1 <= n <= 9 && v < Pow10(n)
    ensures AtoiFixed(Digits(v, n), n) == v
  {
    var ds := Digits(v, n);
    assert ds[..n] == ds;
    DecimalValueOfDigits(v, n);
  }

  /** atoi2MinMax reads back a two-digit number, and rejects it outside
      [min, max]. */
  lemma Atoi2MinMaxOfDigits(v: nat, min: int, max: int)
    requires v < 100
    ensures Atoi2MinMax(Digits(v, 2), min, max) == if min <= v <= max then v else -1
  {
    var ds := Digits(v, 2);
    assert ds[..2] == ds;
    DecimalValueOfDigits(v, 2);
  }

  /** The header of a stamp decodes to its own fields when they form a valid
      date and time, is rejected when they do not, and panics when the month
      is outside 1..12. */
  lemma DateFieldsOfStamp(dt: DateTime, sep: byte)
    requires InDigitRange(dt) && (sep == UpperT || sep == Space)
    ensures HeaderOk(Stamp(dt, sep))
    ensures DateFields(Stamp(dt, sep)) ==
      if !(1 <= dt.month <= 12) then Panic else if ValidDateTime(dt) then Ok(dt) else Err
  {
    StampLayout(dt, sep);
    AtoiFixedOfDigits(dt.year, 4);
    Atoi2MinMaxOfDigits(dt.month, 1, 12);
    Atoi2MinMaxOfDigits(dt.hour, 0, 23);
    Atoi2MinMaxOfDigits(dt.minute, 0, 59);
    Atoi2MinMaxOfDigits(dt.second, 0, 59);
    if 1 <= dt.month <= 12 {
      Atoi2MinMaxOfDigits(dt.day, 1, MonthLength(dt.month, GregorianLeap(dt.year)));
    }
  }

  /** Conversely, a header that decodes is the stamp of its decoded fields,
      and those form a valid date and time. */
  lemma DateFieldsSound(s: seq<byte>)
    requires HeaderOk(s) && DateFields(s).Ok?
    ensures InDigitRange(DateFields(s).value) && ValidDateTime(DateFields(s).value)
    ensures s[..19] == Stamp(DateFields(s).value, s[10])
  {
    var dt := DateFields(s).value;
    TwoDigitField(s, 5, 1, 12);
    var days := DaysIn(dt.month, AtoiFixed(s[0..4], 4)).value;
    TwoDigitField(s, 8, 1, days);
    TwoDigitField(s, 11, 0, 23);
    TwoDigitField(s, 14, 0, 59);
    TwoDigitField(s, 17, 0, 59);
    assert s[0..4][..4] == s[0..4];
    DigitsOfDecimalValue(s[0..4]);
    HeaderPieces(s);
  }

  /** The first 19 bytes, cut at the header's delimiters. */
  lemma HeaderPieces(s: seq<byte>)
    requires |s| >= 19
    ensures s[..19] == s[0..4] + [s[4]] + s[5..7] + [s[7]] + s[8..10] + [s[10]] +
      s[11..13] + [s[13]] + s[14..16] + [s[16]] + s[17..19]
  {
  }

  /** A two-digit field is the zero-padded form of the value atoi2MinMax gave. */
  lemma TwoDigitField(s: seq<byte>, i: nat, min: int, max: int)
    requires i + 2 <= |s| && Atoi2MinMax(s[i..i + 2], min, max) != -1
    ensures var v := Atoi2MinMax(s[i..i + 2], min, max);
      0 <= v < 100 && min <= v <= max && Digits(v, 2) == s[i..i + 2]
  {
    assert s[i..i + 2][..2] == s[i..i + 2];
    DigitsOfDecimalValue(s[i..i + 2]);
  }

  /** The position of the k-digit case in the fast path's order. */
  function CaseIndex(k: nat): (i: nat)
    requires 1 <= k <= 9
    ensures i < |FastCases| && FastCases[i].0 == k
  {
    if k == 3 then 0 else if k == 6 then 1 else if k == 9 then 2 else if k == 1 then 3
    else if k == 2 then 4 else if k == 4 then 5 else if k == 5 then 6 else if k == 7 then 7
    else 8
  }

  /** Every digit count 1..9 has exactly one case. */
  lemma CaseIndexOfEntry(i: nat)
    requires i < |FastCases|
    ensures 1 <= FastCases[i].0 <= 9 && CaseIndex(FastCases[i].0) == i
  {
  }

  /** The factor the fast path applies to k digits. */
  function FastScale(k: nat): nat
    requires 1 <= k <= 9
  {
    FastCases[CaseIndex(k)].1
  }

  /** k fraction digits followed by a zone of zlen bytes make the length
      20+k+zlen; the guard of the (k+zlen)-digit case reads one past the end
      when that case is tried before the k-digit one. */
  predicate FastPanics(k: nat, zlen: nat)
    requires 1 <= k <= 9
  {
    k + zlen <= 9 && CaseIndex(k + zlen) < CaseIndex(k)
  }

  /** Case i of the fast path neither panics nor matches. */
  predicate Skips(s: seq<byte>, i: nat)
    requires |s| > 20 && i < |FastCases|
  {
    var k := FastCases[i].0;
    |s| <= 19 + k || (|s| > 20 + k && !IsZoneStart(s[20 + k]))
  }

  /** Cases that neither panic nor match pass the switch on to the next. */
  lemma {:induction false} FastSwitchRun(s: seq<byte>, j: nat, t: nat)
    requires |s| > 20 && j <= t <= |FastCases|
    requires forall i | j <= i < t :: Skips(s, i)
    ensures FastSwitch(s, j) == FastSwitch(s, t)
    decreases t - j
  {
    if j < t {
      assert Skips(s, j);
      FastSwitchRun(s, j + 1, t);
    }
  }

  /** The fast path on k bytes with no zone start among them, then a zone
      start and zlen-1 more bytes with none: the k-digit case reads the k
      bytes and scales them, unless an earlier case panics. */
  lemma FastSwitchAt(s: seq<byte>, k: nat, zlen: nat)
    requires 1 <= k <= 9 && zlen >= 1 && |s| == 20 + k + zlen
    requires forall p | 20 <= p < 20 + k :: !IsZoneStart(s[p])
    requires IsZoneStart(s[20 + k])
    requires forall p | 21 + k <= p < |s| :: !IsZoneStart(s[p])
    ensures FastSwitch(s, 0) ==
      if FastPanics(k, zlen) then Panic else Ok((AtoiFixed(s[20..20 + k], k) * FastScale(k), 20 + k))
  {
    var t := if FastPanics(k, zlen) then CaseIndex(k + zlen) else CaseIndex(k);
    forall i | 0 <= i < t
      ensures Skips(s, i)
    {
      CaseIndexOfEntry(i);
    }
    FastSwitchRun(s, 0, t);
  }

  /** The fast path on 1..9 bytes with no zone start and nothing after them
      always panics: the k-digit case reads byte 20+k. */
  lemma FastSwitchNoZone(s: seq<byte>, k: nat)
    requires 1 <= k <= 9 && |s| == 20 + k
    requires forall p | 20 <= p < |s| :: !IsZoneStart(s[p])
    ensures FastSwitch(s, 0) == Panic
  {
    var t := CaseIndex(k);
    forall i | 0 <= i < t
      ensures Skips(s, i)
    {
      CaseIndexOfEntry(i);
    }
    FastSwitchRun(s, 0, t);
  }

  /** With no zone start in bytes 21..29 no case matches, and none panics
      once the input is longer than 29 bytes. */
  lemma FastSwitchMiss(s: seq<byte>)
    requires |s| > 29
    requires forall p | 21 <= p < 30 :: !IsZoneStart(s[p])
    ensures FastSwitch(s, 0) == Ok((-1, 19))
  {
    forall i | 0 <= i < |FastCases|
      ensures Skips(s, i)
    {
      CaseIndexOfEntry(i);
    }
    FastSwitchRun(s, 0, |FastCases|);
  }

  /** The fast path's factors are 10^(9-k) for every digit count but two,
      where it is 10^6 instead of 10^7. */
  lemma FastScaleIsPow10(k: nat)
    requires 1 <= k <= 9
    ensures FastScale(k) == Pow10(9 - k) <==> k != 2
    ensures FastScale(2) == 1_000_000 && Pow10(7) == 10_000_000
  {
    assert Pow10(7) == 10_000_000;
    if k != 2 {
      assert Pow10(0) == 1 && Pow10(1) == 10 && Pow10(2) == 100 && Pow10(3) == 1_000;
      assert Pow10(4) == 10_000 && Pow10(5) == 100_000 && Pow10(6) == 1_000_000;
      assert Pow10(8) == 100_000_000;
    }
  }

  /** Which digit counts make the fast path panic, per zone length: after
      'Z' (one byte) for 2, 5 and 8 digits, after `+HHMM` (five bytes) for 1
      and 4 digits, after `+HH` (three) or `+HH:MM` (six) never. */
  lemma FastPanicsByZoneLength(k: nat)
    requires 1 <= k <= 9
    ensures FastPanics(k, 1) <==> k == 2 || k == 5 || k == 8
    ensures FastPanics(k, 5) <==> k == 1 || k == 4
    ensures !FastPanics(k, 3) && !FastPanics(k, 6)
  {
  }

  /** A time zone written after the seconds or the fraction. */
  datatype ZoneForm =
    | Utc(upper: bool)                     // "Z" or "z"
    | Extended(east: bool, hh: nat, mm: nat)  // "+HH:MM" or "-HH:MM"
    | Basic(east: bool, hh: nat, mm: nat)     // "+HHMM" or "-HHMM"
    | HourOnly(east: bool, hh: nat)           // "+HH" or "-HH"

  predicate ZoneInDigitRange(z: ZoneForm)
  {
    match z
    case Utc(_) => true
    case Extended(_, hh, mm) => hh < 100 && mm < 100
    case Basic(_, hh, mm) => hh < 100 && mm < 100
    case HourOnly(_, hh) => hh < 100
  }

  function SignByte(east: bool): byte
  {
    if east then Plus else Minus
  }

  function ZoneText(z: ZoneForm): (t: seq<byte>)
    requires ZoneInDigitRange(z)
    ensures |t| >= 1 && IsZoneStart(t[0])
    ensures forall j | 1 <= j < |t| :: !IsZoneStart(t[j])
  {
    match z
    case Utc(upper) => [if upper then UpperZ else LowerZ]
    case Extended(east, hh, mm) => [SignByte(east)] + Digits(hh, 2) + [Colon] + Digits(mm, 2)
    case Basic(east, hh, mm) => [SignByte(east)] + Digits(hh, 2) + Digits(mm, 2)
    case HourOnly(east, hh) => [SignByte(east)] + Digits(hh, 2)
  }

  /** The (tzH, tzM) parse should read from a zone: -1 for an hour past 23
      or a minute past 59. */
  function ZoneValue(z: ZoneForm): (int, int)
  {
    match z
    case Utc(_) => (0, 0)
    case Extended(_, hh, mm) => (if hh <= 23 then hh else -1, if mm <= 59 then mm else -1)
    case Basic(_, hh, mm) => (if hh <= 23 then hh else -1, if mm <= 59 then mm else -1)
    case HourOnly(_, hh) => (if hh <= 23 then hh else -1, 0)
  }

  function ZoneSignOf(z: ZoneForm): (sign: int)
    ensures sign == 1 || sign == -1
  {
    match z
    case Utc(_) => 1
    case Extended(east, _, _) => if east then 1 else -1
    case Basic(east, _, _) => if east then 1 else -1
    case HourOnly(east, _) => if east then 1 else -1
  }

  /** The last bytes before a zone hold no sign, and the second-to-last no
      colon: true of the seconds and of a fraction after them. */
  predicate QuietEnd(p: seq<byte>)
    requires |p| >= 19
  {
    (forall j | |p| - 5 <= j < |p| :: !IsSign(p[j])) && p[|p| - 2] != Colon
  }

  /** The zone a well-formed prefix is followed by: 'Z', `±HH:MM` and `±HHMM`
      decode to their hour, minute and sign (wherever the fraction left
      tzIdx pointing at the zone). */
  lemma ZoneOfText(p: seq<byte>, z: ZoneForm)
    requires |p| >= 19 && QuietEnd(p) && ZoneInDigitRange(z) && !z.HourOnly?
    ensures Zone(p + ZoneText(z), |p|) == Ok(ZoneValue(z))
    ensures ZoneSign(p + ZoneText(z)) == ZoneSignOf(z)
  {
    var t := ZoneText(z);
    var s := p + t;
    assert forall j | 0 <= j < |p| :: s[j] == p[j];
    assert forall j | 0 <= j < |t| :: s[|p| + j] == t[j];
    match z
    case Utc(_) =>
    case Extended(_, hh, mm) => ExtendedZone(p, s, hh, mm);
    case Basic(_, hh, mm) => BasicZone(p, s, hh, mm);
  }

  /** The suffix switch reads `±HH:MM` from the last six bytes. */
  lemma ExtendedZone(p: seq<byte>, s: seq<byte>, hh: nat, mm: nat)
    requires hh < 100 && mm < 100
    requires |p| >= 19 && |s| == |p| + 6 && IsSign(s[|p|]) && s[|p| + 3] == Colon
    requires s[|p| + 1..|p| + 3] == Digits(hh, 2) && s[|p| + 4..|p| + 6] == Digits(mm, 2)
    ensures SuffixZone(s) == (if hh <= 23 then hh else -1, if mm <= 59 then mm else -1)
    ensures Zone(s, |p|) == Ok((if hh <= 23 then hh else -1, if mm <= 59 then mm else -1))
  {
    Atoi2MinMaxOfDigits(hh, 0, 23);
    Atoi2MinMaxOfDigits(mm, 0, 59);
  }

  /** `±HHMM` is left to the forward fallback, which reads it from tzIdx. */
  lemma BasicZone(p: seq<byte>, s: seq<byte>, hh: nat, mm: nat)
    requires hh < 100 && mm < 100
    requires |p| >= 19 && |s| == |p| + 5 && IsSign(s[|p|])
    requires s[|p| + 1..|p| + 3] == Digits(hh, 2) && s[|p| + 3..|p| + 5] == Digits(mm, 2)
    requires s[|s| - 4] != Plus && s[|s| - 4] != Minus
    ensures Zone(s, |p|) == Ok((if hh <= 23 then hh else -1, if mm <= 59 then mm else -1))
  {
    Atoi2MinMaxOfDigits(hh, 0, 23);
    Atoi2MinMaxOfDigits(mm, 0, 59);
    var m := s[|p| + 3..|p| + 5];
    assert s[|p| + 3] == m[0] && s[|s| - 1] == m[1] && s[|s| - 2] == m[0];
    assert s[|s| - 3] == s[|p| + 1..|p| + 3][1];
  }

  /** `±HH` is found by neither zone switch, and the forward fallback reads
      the byte after the hour, one past the end. */
  lemma HourOnlyZonePanics(p: seq<byte>, east: bool, hh: nat)
    requires |p| >= 19 && QuietEnd(p) && hh < 100
    ensures Zone(p + ZoneText(HourOnly(east, hh)), |p|) == Panic
  {
    var t := ZoneText(HourOnly(east, hh));
    var s := p + t;
    assert forall j | 0 <= j < |p| :: s[j] == p[j];
    assert forall j | 0 <= j < |t| :: s[|p| + j] == t[j];
  }

  /** A fractional second after the seconds. */
  datatype FracForm = NoFrac | Frac(mark: byte, digits: seq<byte>)

  /** A fraction is a '.' or ',' and at least one digit. */
  predicate FracOk(f: FracForm)
  {
    f.Frac? ==> CommaOrPeriod(f.mark) && |f.digits| >= 1 && AllDigits(f.digits)
  }

  function FracText(f: FracForm): seq<byte>
  {
    match f
    case NoFrac => []
    case Frac(mark, digits) => [mark] + digits
  }

  /** The nsec parse gives a fraction: the fast path's scaling for up to
      nine digits, and 0 for ten or more, where the fallback's mult has
      reached 0. */
  function FracNanos(f: FracForm): nat
    requires FracOk(f)
  {
    match f
    case NoFrac => 0
    case Frac(_, ds) => if |ds| <= 9 then DecimalValue(ds) * FastScale(|ds|) else 0
  }

  /** A fraction of up to nine digits before a zone of zlen bytes that
      makes the fast path panic. */
  predicate FracPanics(f: FracForm, zlen: nat)
    requires FracOk(f)
  {
    f.Frac? && |f.digits| <= 9 && FastPanics(|f.digits|, zlen)
  }

  /** The end of a digit run is the first non-digit. */
  lemma DigitRunEndAt(s: seq<byte>, i: nat, e: nat)
    requires i <= e <= |s|
    requires forall j | i <= j < e :: IsAsciiDigit(s[j])
    requires e == |s| || !IsAsciiDigit(s[e])
    ensures DigitRunEnd(s, i) == e
  {
  }

  /** Past the separator, a fast-path value other than -1 is the fraction. */
  lemma FractionOfFast(s: seq<byte>)
    requires |s| > 20 && CommaOrPeriod(s[19])
    requires FastSwitch(s, 0).Ok? ==> FastSwitch(s, 0).value.0 != -1
    ensures Fraction(s) == FastSwitch(s, 0)
  {
  }

  lemma MulNat(a: nat, b: nat)
    ensures a * b >= 0
  {
  }

  /** A short fraction: up to nine digits straight before the zone take the
      fast path, which panics or scales them. */
  lemma ShortFraction(s: seq<byte>, k: nat, zlen: nat)
    requires 1 <= k <= 9 && zlen >= 1 && |s| == 20 + k + zlen
    requires CommaOrPeriod(s[19]) && AllDigits(s[20..20 + k])
    requires IsZoneStart(s[20 + k])
    requires forall p | 21 + k <= p < |s| :: !IsZoneStart(s[p])
    ensures Fraction(s) == if FastPanics(k, zlen) then Panic
                           else Ok((DecimalValue(s[20..20 + k]) * FastScale(k), 20 + k))
  {
    var ds := s[20..20 + k];
    assert forall p | 20 <= p < 20 + k :: s[p] == ds[p - 20];
    FastSwitchAt(s, k, zlen);
    assert ds[..k] == ds;
    assert AtoiFixed(ds, k) == DecimalValue(ds);
    MulNat(DecimalValue(ds), FastScale(k));
    FractionOfFast(s);
  }

  /** A long fraction: ten digits or more miss every fast case, and the
      fallback's multiplier has run down to 0 by the end of the run. */
  lemma LongFraction(s: seq<byte>, k: nat)
    requires k >= 10 && |s| > 20 + k
    requires CommaOrPeriod(s[19]) && AllDigits(s[20..20 + k]) && !IsAsciiDigit(s[20 + k])
    ensures Fraction(s) == Ok((0, (20 + k) as nat))
  {
    assert forall p | 20 <= p < 20 + k :: s[p] == s[20..20 + k][p - 20];
    FastSwitchMiss(s);
    DigitRunEndAt(s, 20, 20 + k);
  }

  /** No fraction: the zone starts at byte 19, which is no separator. */
  lemma NoFractionOf(h: seq<byte>, zt: seq<byte>)
    requires |h| == 19 && |zt| >= 1 && IsZoneStart(zt[0])
    ensures Fraction(h + FracText(NoFrac) + zt) == Ok((0, 19))
  {
    var s := h + FracText(NoFrac) + zt;
    assert s[19] == zt[0];
  }

  /** A fraction of up to nine digits, before the zone text. */
  lemma ShortFractionOf(h: seq<byte>, mark: byte, ds: seq<byte>, zt: seq<byte>)
    requires |h| == 19 && FracOk(Frac(mark, ds)) && |ds| <= 9
    requires |zt| >= 1 && IsZoneStart(zt[0]) && forall j | 1 <= j < |zt| :: !IsZoneStart(zt[j])
    ensures Fraction(h + FracText(Frac(mark, ds)) + zt) ==
      if FracPanics(Frac(mark, ds), |zt|) then Panic
      else Ok((FracNanos(Frac(mark, ds)) as int, (20 + |ds|) as nat))
  {
    var s := h + FracText(Frac(mark, ds)) + zt;
    var k := |ds|;
    assert s[19] == mark && s[20..20 + k] == ds && s[20 + k] == zt[0];
    assert forall p | 21 + k <= p < |s| :: s[p] == zt[p - 20 - k];
    ShortFraction(s, k, |zt|);
  }

  /** A fraction of ten digits or more, before the zone text. */
  lemma LongFractionOf(h: seq<byte>, mark: byte, ds: seq<byte>, zt: seq<byte>)
    requires |h| == 19 && FracOk(Frac(mark, ds)) && |ds| > 9
    requires |zt| >= 1 && IsZoneStart(zt[0])
    ensures Fraction(h + FracText(Frac(mark, ds)) + zt) == Ok((0, (20 + |ds|) as nat))
  {
    var s := h + FracText(Frac(mark, ds)) + zt;
    var k := |ds|;
    assert s[19] == mark && s[20..20 + k] == ds && s[20 + k] == zt[0];
    LongFraction(s, k);
  }

  /** The fraction part of parse on 19 header bytes, a fraction and a zone
      text: (nsec, tzIdx) with tzIdx at the zone, or a panic of the fast
      path. */
  lemma FractionOf(h: seq<byte>, f: FracForm, zt: seq<byte>)
    requires |h| == 19 && FracOk(f)
    requires |zt| >= 1 && IsZoneStart(zt[0]) && forall j | 1 <= j < |zt| :: !IsZoneStart(zt[j])
    ensures Fraction(h + FracText(f) + zt) ==
      if FracPanics(f, |zt|) then Panic else Ok((FracNanos(f) as int, (19 + |FracText(f)|) as nat))
  {
    match f
    case NoFrac => NoFractionOf(h, zt);
    case Frac(mark, ds) =>
      if |ds| <= 9 {
        ShortFractionOf(h, mark, ds, zt);
      } else {
        LongFractionOf(h, mark, ds, zt);
      }
  }

  /** Only the first 19 bytes decide the header and its fields. */
  lemma HeaderOfPrefix(s: seq<byte>, h: seq<byte>)
    requires |s| >= 19 && h == s[..19]
    ensures HeaderOk(s) == HeaderOk(h)
    ensures DateFields(s) == DateFields(h)
  {
    assert s[0..4] == h[0..4] && s[5..7] == h[5..7] && s[8..10] == h[8..10];
    assert s[11..13] == h[11..13] && s[14..16] == h[14..16] && s[17..19] == h[17..19];
  }

  /** After a header whose fields decode, and a fraction, the last bytes hold
      no sign and the second to last no colon. */
  lemma QuietEndOfFields(h: seq<byte>, f: FracForm)
    requires |h| == 19 && HeaderOk(h) && DateFields(h).Ok? && FracOk(f)
    ensures |h + FracText(f)| >= 19 && QuietEnd(h + FracText(f))
  {
    var t := FracText(f);
    var p := h + t;
    assert IsAsciiDigit(h[14]) && IsAsciiDigit(h[15]) && IsAsciiDigit(h[17]) && IsAsciiDigit(h[18]) by {
      TwoDigitField(h, 14, 0, 59);
      TwoDigitField(h, 17, 0, 59);
      assert h[14] == h[14..16][0] && h[15] == h[14..16][1];
      assert h[17] == h[17..19][0] && h[18] == h[17..19][1];
    }
    assert p[14] == h[14] && p[15] == h[15] && p[16] == Colon && p[17] == h[17] && p[18] == h[18];
    forall j | |p| - 5 <= j < |p|
      ensures !IsSign(p[j]) && (j == |p| - 2 ==> p[j] != Colon)
    {
      if j >= 19 {
        assert p[j] == t[j - 19];
        if j > 19 {
          assert t[j - 19] == f.digits[j - 20];
        }
      }
    }
  }

  /** Past a good header, parse fails as the fields fail, and is its tail
      once they are read. */
  lemma DecodeByFields(s: seq<byte>)
    requires HeaderOk(s)
    ensures DateFields(s).Panic? ==> Decode(s) == Panic
    ensures DateFields(s).Err? ==> Decode(s) == Err
    ensures DateFields(s).Ok? ==> Decode(s) == Tail(s, DateFields(s).value)
  {
  }

  /** The tail's verdict once the fraction, the zone and the sign are known:
      any -1 or an unsigned zone is the parse error, and otherwise the offset
      is the signed sum of the zone's hours and minutes in seconds. */
  lemma TailOf(s: seq<byte>, dt: DateTime, nsec: int, tzIdx: nat, tzH: int, tzM: int)
    requires |s| >= 19 && Fraction(s) == Ok((nsec, tzIdx)) && Zone(s, tzIdx) == Ok((tzH, tzM))
    ensures Tail(s, dt) == Verdict(dt, nsec, tzH, tzM, ZoneSign(s))
  {
  }

  /** The final check of parse and the offset it computes. */
  function Verdict(dt: DateTime, nsec: int, tzH: int, tzM: int, sign: int): Outcome<Fields>
  {
    if nsec == -1 || tzH == -1 || tzM == -1 || sign == 0 then Err
    else Ok(Fields(dt, nsec, sign * (tzH * 3600 + tzM * 60)))
  }

  /** What the tail of parse gives after fields dt, for a fraction f, a zone
      text of zlen bytes, the zone's hour and minute and its sign. */
  function TailResult(dt: DateTime, f: FracForm, zlen: nat, zone: (int, int), sign: int): Outcome<Fields>
    requires FracOk(f)
  {
    if FracPanics(f, zlen) then Panic
    else if zone.0 == -1 || zone.1 == -1 || sign == 0 then Err
    else Ok(Fields(dt, FracNanos(f), sign * (zone.0 * 3600 + zone.1 * 60)))
  }

  /** What parse gives for 19 header bytes h before the fraction and zone. */
  function TextResult(h: seq<byte>, f: FracForm, zlen: nat, zone: (int, int), sign: int): Outcome<Fields>
    requires |h| == 19 && FracOk(f)
  {
    if !HeaderOk(h) then Err
    else
      match DateFields(h)
      case Panic => Panic
      case Err => Err
      case Ok(dt) => TailResult(dt, f, zlen, zone, sign)
  }

  /** The tail of parse on a header, a fraction and a zone text whose zone
      and sign are known. */
  lemma TailOfZone(h: seq<byte>, dt: DateTime, f: FracForm, p: seq<byte>, zt: seq<byte>,
                   zone: (int, int), sign: int)
    requires |h| == 19 && FracOk(f) && p == h + FracText(f)
    requires |zt| >= 1 && IsZoneStart(zt[0]) && forall j | 1 <= j < |zt| :: !IsZoneStart(zt[j])
    requires Zone(p + zt, |p|) == Ok(zone) && ZoneSign(p + zt) == sign
    ensures Tail(p + zt, dt) == TailResult(dt, f, |zt|, zone, sign)
  {
    FractionOf(h, f, zt);
    TailVerdict(p + zt, dt, f, |zt|, |p|, zone, sign);
  }

  /** The tail's verdict from the fraction's outcome, the zone and the sign. */
  lemma TailVerdict(s: seq<byte>, dt: DateTime, f: FracForm, zlen: nat, tzIdx: nat, zone: (int, int), sign: int)
    requires |s| >= 19 && FracOk(f)
    requires Fraction(s) == if FracPanics(f, zlen) then Panic else Ok((FracNanos(f) as int, tzIdx))
    requires Zone(s, tzIdx) == Ok(zone) && ZoneSign(s) == sign
    ensures Tail(s, dt) == TailResult(dt, f, zlen, zone, sign)
  {
    if !FracPanics(f, zlen) {
      TailOf(s, dt, FracNanos(f), tzIdx, zone.0, zone.1);
    }
  }

  /** parse on a header, a fraction and a zone text, once the zone and its
      sign are known for the fields that decode. */
  lemma DecodeOfPieces(h: seq<byte>, f: FracForm, zt: seq<byte>, zone: (int, int), sign: int)
    requires |h| == 19 && FracOk(f)
    requires |zt| >= 1 && IsZoneStart(zt[0]) && forall j | 1 <= j < |zt| :: !IsZoneStart(zt[j])
    requires HeaderOk(h) && DateFields(h).Ok? ==>
      Zone(h + FracText(f) + zt, |h + FracText(f)|) == Ok(zone) &&
      ZoneSign(h + FracText(f) + zt) == sign
    ensures Decode(h + FracText(f) + zt) == TextResult(h, f, |zt|, zone, sign)
  {
    var p := h + FracText(f);
    assert (p + zt)[..19] == h;
    HeaderOfPrefix(p + zt, h);
    if HeaderOk(h) {
      DecodeByFields(p + zt);
      if DateFields(h).Ok? {
        TailOfZone(h, DateFields(h).value, f, p, zt, zone, sign);
      }
    }
  }

  /** parse on any 19 header bytes, a fraction and a 'Z', `±HH:MM` or
      `±HHMM` zone: the header's verdict, and for fields that decode, the
      fast path's panic or the zone's hour, minute and sign combined with
      the fraction's nanoseconds. */
  lemma DecodeOfText(h: seq<byte>, f: FracForm, z: ZoneForm)
    requires |h| == 19 && FracOk(f) && ZoneInDigitRange(z) && !z.HourOnly?
    ensures Decode(h + FracText(f) + ZoneText(z)) == TextResult(h, f, |ZoneText(z)|, ZoneValue(z), ZoneSignOf(z))
  {
    if HeaderOk(h) && DateFields(h).Ok? {
      QuietEndOfFields(h, f);
      ZoneOfText(h + FracText(f), z);
    }
    DecodeOfPieces(h, f, ZoneText(z), ZoneValue(z), ZoneSignOf(z));
  }

  /** parse on a stamp, a fraction and a 'Z', `±HH:MM` or `±HHMM` zone:
      a panic for a month outside 1..12, the parse error for a day, hour,
      minute or second out of range, and otherwise the tail's verdict on
      the stamp's own fields. */
  lemma DecodeOfStamp(dt: DateTime, sep: byte, f: FracForm, z: ZoneForm)
    requires InDigitRange(dt) && (sep == UpperT || sep == Space)
    requires FracOk(f) && ZoneInDigitRange(z) && !z.HourOnly?
    ensures Decode(Stamp(dt, sep) + FracText(f) + ZoneText(z)) ==
      if !(1 <= dt.month <= 12) then Panic
      else if !ValidDateTime(dt) then Err
      else TailResult(dt, f, |ZoneText(z)|, ZoneValue(z), ZoneSignOf(z))
  {
    DateFieldsOfStamp(dt, sep);
    DecodeOfText(Stamp(dt, sep), f, z);
  }
}
