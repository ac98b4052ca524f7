/** parse on the inputs it documents and on the ones where the code departs
    from them: round trips of well-formed stamps, the agreement of the zone
    forms, and the as-written behaviour of short fractions, non-digit
    fractions, zoneless stamps, hour-only zones and junk before a zone. */
module ParseTimeCases {
  import opened Bytes
  import opened Calendar
  import opened StdTime
  import opened ParseTime
  import opened ParseTimeFacts

  /** What Go's time package makes of a fraction, as parseNanoseconds
      reads it: the first nine digits, scaled to nine places. */
  function IntendedNanos(f: FracForm): (ns: nat)
    requires FracOk(f)
    ensures ns < 1_000_000_000
  {
    match f
    case NoFrac => 0
    case Frac(_, ds) =>
      var k := if |ds| > 9 then 9 else |ds|;
      assert AllDigits(ds[..k]);
      FractionBound(DecimalValue(ds[..k]), k);
      DecimalValue(ds[..k]) * Pow10(9 - k)
  }

  /** IntendedNanos is what parseNanoseconds returns for the same bytes. */
  lemma IntendedIsParseNanoseconds(mark: byte, ds: seq<byte>)
    requires FracOk(Frac(mark, ds))
    ensures Nanoseconds([mark] + ds, |ds| + 1) == Ok(Nanos(IntendedNanos(Frac(mark, ds)), false))
  {
    NanosecondsOfDigits(mark, ds);
  }

  /** The nsec parse gives a fraction against the intended one: equal for
      one and three to nine digits, a tenth of it for two, and 0 for ten or
      more, which is right only when the first nine digits are zeros. */
  lemma FracNanosVersusIntended(f: FracForm)
    requires FracOk(f)
    ensures f.NoFrac? || (|f.digits| <= 9 && |f.digits| != 2) ==> FracNanos(f) == IntendedNanos(f)
    ensures f.Frac? && |f.digits| == 2 ==>
      10 * FracNanos(f) == IntendedNanos(f) && (FracNanos(f) == IntendedNanos(f) <==> DecimalValue(f.digits) == 0)
    ensures f.Frac? && |f.digits| > 9 ==>
      FracNanos(f) == 0 && (FracNanos(f) == IntendedNanos(f) <==> DecimalValue(f.digits[..9]) == 0)
  {
    if f.Frac? {
      var ds := f.digits;
      if |ds| <= 9 {
        assert ds[..|ds|] == ds;
        FastScaleIsPow10(|ds|);
      } else {
        assert Pow10(0) == 1;
      }
    }
  }

  /** `.12+08:00` after any valid stamp decodes to 12_000_000 ns instead of
      the 120_000_000 the text means. */
  lemma TwoDigitFractionShort(dt: DateTime)
    requires ValidDateTime(dt)
    ensures var f := Frac(Dot, [Zero + 1, Zero + 2]);
      Decode(Stamp(dt, UpperT) + FracText(f) + ZoneText(Extended(true, 8, 0))) ==
        Ok(Fields(dt, 12_000_000, 28_800)) &&
      IntendedNanos(f) == 120_000_000
  {
    var f, z := Frac(Dot, [Zero + 1, Zero + 2]), Extended(true, 8, 0);
    assert DecimalValue(f.digits) == 12 by {
      assert f.digits[..1] == [Zero + 1];
    }
    assert IntendedNanos(f) == 120_000_000 by {
      FracNanosVersusIntended(f);
    }
    assert |ZoneText(z)| == 6;
    assert FracNanos(f) == 12_000_000 && !FracPanics(f, 6) by {
      FastScaleIsPow10(2);
    }
    RoundTrip(dt, UpperT, f, z);
  }

  /** The signed offset a zone names, in seconds east of UTC. */
  function ZoneOffset(z: ZoneForm): int
  {
    match z
    case Utc(_) => 0
    case Extended(east, hh, mm) => (if east then 1 else -1) * (hh * 3600 + mm * 60)
    case Basic(east, hh, mm) => (if east then 1 else -1) * (hh * 3600 + mm * 60)
    case HourOnly(east, hh) => (if east then 1 else -1) * hh * 3600
  }

  /** A zone whose hour is at most 23 and minute at most 59. */
  predicate ZoneInRange(z: ZoneForm)
  {
    match z
    case Utc(_) => true
    case Extended(_, hh, mm) => hh <= 23 && mm <= 59
    case Basic(_, hh, mm) => hh <= 23 && mm <= 59
    case HourOnly(_, hh) => hh <= 23
  }

  /** For a zone in range, the tail's verdict is the fields, the
      fraction's nanoseconds and the zone's own offset, unless the fast
      path panics. */
  lemma TailResultInRange(dt: DateTime, f: FracForm, zlen: nat, z: ZoneForm)
    requires FracOk(f) && ZoneInRange(z)
    ensures TailResult(dt, f, zlen, ZoneValue(z), ZoneSignOf(z)) ==
      if FracPanics(f, zlen) then Panic else Ok(Fields(dt, FracNanos(f), ZoneOffset(z)))
  {
    match z
    case Utc(_) =>
    case Extended(east, hh, mm) =>
    case Basic(east, hh, mm) =>
    case HourOnly(east, hh) =>
  }

  /** parse inverts formatting: a valid date and time, a fraction, and a
      'Z', `±HH:MM` or `±HHMM` zone decode to the fields, the fraction's
      nanoseconds and the zone's offset, unless the fast path panics on
      that digit count and zone length. The nanoseconds are the intended
      ones except for two digits. */
  lemma RoundTrip(dt: DateTime, sep: byte, f: FracForm, z: ZoneForm)
    requires ValidDateTime(dt) && (sep == UpperT || sep == Space)
    requires FracOk(f) && ZoneInDigitRange(z) && ZoneInRange(z) && !z.HourOnly?
    ensures var s := Stamp(dt, sep) + FracText(f) + ZoneText(z);
      Decode(s) == if FracPanics(f, |ZoneText(z)|) then Panic else Ok(Fields(dt, FracNanos(f), ZoneOffset(z)))
    ensures f.NoFrac? || (|f.digits| <= 9 && |f.digits| != 2) ==> FracNanos(f) == IntendedNanos(f)
  {
    DecodeOfStamp(dt, sep, f, z);
    TailResultInRange(dt, f, |ZoneText(z)|, z);
    FracNanosVersusIntended(f);
  }

  /** After a fraction of one to nine digits, 'Z' panics exactly for 2, 5
      and 8 digits and `±HHMM` exactly for 1 and 4; `±HH:MM` never does. */
  lemma ZoneAfterFraction(dt: DateTime, sep: byte, mark: byte, ds: seq<byte>, upper: bool, east: bool, hh: nat, mm: nat)
    requires ValidDateTime(dt) && (sep == UpperT || sep == Space)
    requires FracOk(Frac(mark, ds)) && |ds| <= 9 && hh < 100 && mm < 100
    ensures var p := Stamp(dt, sep) + FracText(Frac(mark, ds));
      (Decode(p + ZoneText(Utc(upper))) == Panic <==> |ds| == 2 || |ds| == 5 || |ds| == 8) &&
      (Decode(p + ZoneText(Basic(east, hh, mm))) == Panic <==> |ds| == 1 || |ds| == 4) &&
      Decode(p + ZoneText(Extended(east, hh, mm))) != Panic
  {
    var f := Frac(mark, ds);
    var p := Stamp(dt, sep) + FracText(f);
    FastPanicsByZoneLength(|ds|);
    assert Decode(p + ZoneText(Utc(upper))) == Panic <==> |ds| == 2 || |ds| == 5 || |ds| == 8 by {
      DecodeOfStamp(dt, sep, f, Utc(upper));
    }
    assert Decode(p + ZoneText(Basic(east, hh, mm))) == Panic <==> |ds| == 1 || |ds| == 4 by {
      DecodeOfStamp(dt, sep, f, Basic(east, hh, mm));
    }
    assert Decode(p + ZoneText(Extended(east, hh, mm))) != Panic by {
      DecodeOfStamp(dt, sep, f, Extended(east, hh, mm));
    }
  }

  /** `±HH:MM` and `±HHMM` decode alike wherever the basic form does not
      make the fast path panic. */
  lemma ExtendedAndBasicAgree(dt: DateTime, sep: byte, f: FracForm, east: bool, hh: nat, mm: nat)
    requires InDigitRange(dt) && (sep == UpperT || sep == Space)
    requires FracOk(f) && hh < 100 && mm < 100 && !FracPanics(f, 5)
    ensures Decode(Stamp(dt, sep) + FracText(f) + ZoneText(Extended(east, hh, mm))) ==
            Decode(Stamp(dt, sep) + FracText(f) + ZoneText(Basic(east, hh, mm)))
  {
    var ext, bas := Extended(east, hh, mm), Basic(east, hh, mm);
    if f.Frac? && |f.digits| <= 9 {
      FastPanicsByZoneLength(|f.digits|);
    }
    assert |ZoneText(ext)| == 6 && |ZoneText(bas)| == 5;
    assert ZoneValue(ext) == ZoneValue(bas) && ZoneSignOf(ext) == ZoneSignOf(bas);
    assert TailResult(dt, f, 6, ZoneValue(ext), ZoneSignOf(ext)) == TailResult(dt, f, 5, ZoneValue(bas), ZoneSignOf(bas));
    DecodeOfStamp(dt, sep, f, ext);
    DecodeOfStamp(dt, sep, f, bas);
  }

  /** A '-' zone decodes to the negated offset of the same '+' zone. */
  lemma WestNegates(dt: DateTime, sep: byte, f: FracForm, basic: bool, hh: nat, mm: nat)
    requires ValidDateTime(dt) && (sep == UpperT || sep == Space)
    requires FracOk(f) && hh <= 23 && mm <= 59 && !FracPanics(f, 5)
    ensures var p := Stamp(dt, sep) + FracText(f);
      var east := if basic then Basic(true, hh, mm) else Extended(true, hh, mm);
      var west := if basic then Basic(false, hh, mm) else Extended(false, hh, mm);
      Decode(p + ZoneText(east)).Ok? && Decode(p + ZoneText(west)).Ok? &&
      Decode(p + ZoneText(west)).value.tzOffset == -Decode(p + ZoneText(east)).value.tzOffset &&
      Decode(p + ZoneText(west)).value.dt == Decode(p + ZoneText(east)).value.dt &&
      Decode(p + ZoneText(west)).value.nsec == Decode(p + ZoneText(east)).value.nsec
  {
    if f.Frac? && |f.digits| <= 9 {
      FastPanicsByZoneLength(|f.digits|);
    }
    var p := Stamp(dt, sep) + FracText(f);
    var east := if basic then Basic(true, hh, mm) else Extended(true, hh, mm);
    var west := if basic then Basic(false, hh, mm) else Extended(false, hh, mm);
    assert !FracPanics(f, |ZoneText(east)|) && !FracPanics(f, |ZoneText(west)|);
    assert Decode(p + ZoneText(east)) == Ok(Fields(dt, FracNanos(f), ZoneOffset(east))) by {
      RoundTrip(dt, sep, f, east);
    }
    assert Decode(p + ZoneText(west)) == Ok(Fields(dt, FracNanos(f), ZoneOffset(west))) by {
      RoundTrip(dt, sep, f, west);
    }
  }

  /** `+08:00` after any valid stamp gives 28800 s. */
  lemma PlusEightExtended(dt: DateTime)
    requires ValidDateTime(dt)
    ensures Decode(Stamp(dt, UpperT) + ZoneText(Extended(true, 8, 0))) == Ok(Fields(dt, 0, 28_800))
  {
    assert Stamp(dt, UpperT) + FracText(NoFrac) == Stamp(dt, UpperT);
    RoundTrip(dt, UpperT, NoFrac, Extended(true, 8, 0));
  }

  /** `+0800` after any valid stamp gives 28800 s as well. */
  lemma PlusEightBasic(dt: DateTime)
    requires ValidDateTime(dt)
    ensures Decode(Stamp(dt, UpperT) + ZoneText(Basic(true, 8, 0))) == Ok(Fields(dt, 0, 28_800))
  {
    assert Stamp(dt, UpperT) + FracText(NoFrac) == Stamp(dt, UpperT);
    RoundTrip(dt, UpperT, NoFrac, Basic(true, 8, 0));
  }

  /** `-08:00` after a stamp with a space separator gives -28800 s. */
  lemma MinusEightExtended(dt: DateTime)
    requires ValidDateTime(dt)
    ensures Decode(Stamp(dt, Space) + ZoneText(Extended(false, 8, 0))) == Ok(Fields(dt, 0, -28_800))
  {
    assert Stamp(dt, Space) + FracText(NoFrac) == Stamp(dt, Space);
    RoundTrip(dt, Space, NoFrac, Extended(false, 8, 0));
  }

  /** A zone hour is accepted up to 23: `+15:00` gives 54000 s, `+23:59`
      86340 s, and only `+24:00` is the parse error. */
  lemma ZoneHourBound(dt: DateTime)
    requires ValidDateTime(dt)
    ensures Decode(Stamp(dt, UpperT) + ZoneText(Extended(true, 15, 0))) == Ok(Fields(dt, 0, 54_000))
    ensures Decode(Stamp(dt, UpperT) + ZoneText(Extended(true, 23, 59))) == Ok(Fields(dt, 0, 86_340))
    ensures Decode(Stamp(dt, UpperT) + ZoneText(Extended(true, 24, 0))) == Err
  {
    var h := Stamp(dt, UpperT);
    assert h + FracText(NoFrac) == h;
    RoundTrip(dt, UpperT, NoFrac, Extended(true, 15, 0));
    RoundTrip(dt, UpperT, NoFrac, Extended(true, 23, 59));
    assert Decode(h + ZoneText(Extended(true, 24, 0))) == Err by {
      assert ZoneValue(Extended(true, 24, 0)) == (-1, 0);
      DecodeOfStamp(dt, UpperT, NoFrac, Extended(true, 24, 0));
    }
  }

  /** West of UTC the bound is the same: `-13:00` gives -46800 s. */
  lemma MinusThirteen(dt: DateTime)
    requires ValidDateTime(dt)
    ensures Decode(Stamp(dt, UpperT) + ZoneText(Extended(false, 13, 0))) == Ok(Fields(dt, 0, -46_800))
  {
    var h := Stamp(dt, UpperT);
    assert h + FracText(NoFrac) == h;
    RoundTrip(dt, UpperT, NoFrac, Extended(false, 13, 0));
  }

  /** 29 February decodes exactly in leap years of the Gregorian rule. */
  lemma LeapDay(year: int)
    requires 0 <= year <= 9999
    ensures var dt := DateTime(year, 2, 29, 0, 0, 0);
      Decode(Stamp(dt, UpperT) + ZoneText(Utc(true))) ==
        if GregorianLeap(year) then Ok(Fields(dt, 0, 0)) else Err
  {
    var dt := DateTime(year, 2, 29, 0, 0, 0);
    assert Stamp(dt, UpperT) + FracText(NoFrac) == Stamp(dt, UpperT);
    DecodeOfStamp(dt, UpperT, NoFrac, Utc(true));
  }

  /** 2000 and 2024 have a 29 February; 1900 and 2023 do not. */
  lemma LeapDayExamples()
    ensures Decode(Stamp(DateTime(2000, 2, 29, 0, 0, 0), UpperT) + ZoneText(Utc(true))).Ok?
    ensures Decode(Stamp(DateTime(2024, 2, 29, 0, 0, 0), UpperT) + ZoneText(Utc(true))).Ok?
    ensures Decode(Stamp(DateTime(1900, 2, 29, 0, 0, 0), UpperT) + ZoneText(Utc(true))) == Err
    ensures Decode(Stamp(DateTime(2023, 2, 29, 0, 0, 0), UpperT) + ZoneText(Utc(true))) == Err
  {
    LeapDay(2000);
    LeapDay(2024);
    LeapDay(1900);
    LeapDay(2023);
  }

  /** 30 February is the parse error even in a leap year, and month 13
      panics in daysIn. */
  lemma DayAndMonthRangeExamples()
    ensures Decode(Stamp(DateTime(2000, 2, 30, 0, 0, 0), UpperT) + ZoneText(Utc(true))) == Err
    ensures Decode(Stamp(DateTime(2006, 13, 2, 15, 4, 5), UpperT) + ZoneText(Utc(true))) == Panic
  {
    var d1, d2 := DateTime(2000, 2, 30, 0, 0, 0), DateTime(2006, 13, 2, 15, 4, 5);
    assert Stamp(d1, UpperT) + FracText(NoFrac) == Stamp(d1, UpperT);
    assert Stamp(d2, UpperT) + FracText(NoFrac) == Stamp(d2, UpperT);
    DecodeOfStamp(d1, UpperT, NoFrac, Utc(true));
    DecodeOfStamp(d2, UpperT, NoFrac, Utc(true));
  }

  /** Nine fraction digits before `+00:00` are read exactly, as
      nanoseconds. */
  lemma NineDigitFraction(dt: DateTime, ds: seq<byte>)
    requires ValidDateTime(dt) && AllDigits(ds) && |ds| == 9
    ensures Decode(Stamp(dt, UpperT) + FracText(Frac(Dot, ds)) + ZoneText(Extended(true, 0, 0))) ==
      Ok(Fields(dt, DecimalValue(ds), 0))
  {
    var f := Frac(Dot, ds);
    assert FracNanos(f) == DecimalValue(ds) && !FracPanics(f, 6) by {
      FastScaleIsPow10(9);
    }
    RoundTrip(dt, UpperT, f, Extended(true, 0, 0));
  }

  /** `.1+00:00` gives 100000000 ns. */
  lemma OneDigitFraction(dt: DateTime)
    requires ValidDateTime(dt)
    ensures Decode(Stamp(dt, UpperT) + FracText(Frac(Dot, [Zero + 1])) + ZoneText(Extended(true, 0, 0))) ==
      Ok(Fields(dt, 100_000_000, 0))
  {
    var f := Frac(Dot, [Zero + 1]);
    assert FracNanos(f) == 100_000_000 by {
      assert [Zero + 1][..0] == [];
    }
    assert |ZoneText(Extended(true, 0, 0))| == 6 && !FracPanics(f, 6);
    RoundTrip(dt, UpperT, f, Extended(true, 0, 0));
  }

  /** Ten or more fraction digits before 'Z' give 0 ns rather than the
      parse error. */
  lemma TenDigitFraction(dt: DateTime, ds: seq<byte>)
    requires ValidDateTime(dt) && AllDigits(ds) && |ds| >= 10
    ensures Decode(Stamp(dt, UpperT) + FracText(Frac(Dot, ds)) + ZoneText(Utc(true))) == Ok(Fields(dt, 0, 0))
  {
    var f := Frac(Dot, ds);
    assert FracNanos(f) == 0 && !FracPanics(f, 1);
    RoundTrip(dt, UpperT, f, Utc(true));
  }

  /** Fewer than 19 bytes, a date on its own among them, are the parse
      error. */
  lemma ShortInputRejected(s: seq<byte>)
    requires |s| < 19
    ensures Decode(s) == Err
  {
  }

  /** A stamp with no zone is the parse error (its sign stays 0), or a
      panic when the month is outside 1..12. */
  lemma ZonelessRejected(dt: DateTime, sep: byte)
    requires InDigitRange(dt) && (sep == UpperT || sep == Space)
    ensures Decode(Stamp(dt, sep)) == if !(1 <= dt.month <= 12) then Panic else Err
  {
    var s := Stamp(dt, sep);
    DateFieldsOfStamp(dt, sep);
    StampLayout(dt, sep);
    assert s[14] == s[14..16][0] && s[18] == s[17..19][1];
    assert ZoneSign(s) == 0;
    DecodeByFields(s);
  }

  /** Up to nine fraction digits and nothing after them: the fast path
      reads one past the end. */
  lemma ShortFractionWithoutZone(s: seq<byte>, dt: DateTime)
    requires 21 <= |s| <= 29 && CommaOrPeriod(s[19]) && AllDigits(s[20..])
    ensures Tail(s, dt) == Panic
  {
    assert forall p | 20 <= p < |s| :: s[p] == s[20..][p - 20];
    FastSwitchNoZone(s, |s| - 20);
  }

  /** Ten fraction digits or more and nothing after them: the fallback runs
      to the end, and the forward zone fallback starts there. */
  lemma LongFractionWithoutZone(s: seq<byte>, dt: DateTime)
    requires |s| >= 30 && CommaOrPeriod(s[19]) && AllDigits(s[20..])
    ensures Tail(s, dt) == Panic
  {
    assert forall p | 20 <= p < |s| :: s[p] == s[20..][p - 20];
    FastSwitchMiss(s);
    DigitRunEndAt(s, 20, |s|);
    assert Fraction(s) == Ok(FallbackFraction(s));
    var n := |s|;
    assert IsAsciiDigit(s[n - 1]) && IsAsciiDigit(s[n - 2]) && IsAsciiDigit(s[n - 3]) && IsAsciiDigit(s[n - 4]);
    assert SuffixZone(s) == (-1, -1);
  }

  /** A fraction with no zone after it panics for valid fields: up to nine
      digits in the fast path, from ten on in the forward zone fallback,
      which starts past the end. */
  lemma FractionWithoutZonePanics(dt: DateTime, sep: byte, mark: byte, ds: seq<byte>)
    requires ValidDateTime(dt) && (sep == UpperT || sep == Space) && FracOk(Frac(mark, ds))
    ensures Decode(Stamp(dt, sep) + FracText(Frac(mark, ds))) == Panic
  {
    var h := Stamp(dt, sep);
    var s := h + FracText(Frac(mark, ds));
    assert s[..19] == h && s[19] == mark && s[20..] == ds;
    assert Decode(s) == Tail(s, dt) by {
      DecodeAfterStamp(s, dt, sep);
    }
    assert Tail(s, dt) == Panic by {
      if |s| <= 29 {
        ShortFractionWithoutZone(s, dt);
      } else {
        LongFractionWithoutZone(s, dt);
      }
    }
  }

  /** A `±HH` zone is found by neither zone switch, and the forward
      fallback reads past the end: parse panics for valid fields. */
  lemma HourOnlyPanics(dt: DateTime, sep: byte, f: FracForm, east: bool, hh: nat)
    requires ValidDateTime(dt) && (sep == UpperT || sep == Space) && FracOk(f) && hh < 100
    ensures Decode(Stamp(dt, sep) + FracText(f) + ZoneText(HourOnly(east, hh))) == Panic
  {
    var h := Stamp(dt, sep);
    var p := h + FracText(f);
    var zt := ZoneText(HourOnly(east, hh));
    assert (p + zt)[..19] == h;
    DateFieldsOfStamp(dt, sep);
    HeaderOfPrefix(p + zt, h);
    DecodeByFields(p + zt);
    if f.Frac? && |f.digits| <= 9 {
      FastPanicsByZoneLength(|f.digits|);
    }
    FractionOf(h, f, zt);
    QuietEndOfFields(h, f);
    HourOnlyZonePanics(p, east, hh);
  }
  /** A run of k digits from byte 20 on, ended by a non-digit or the end:
      the fallback stops at that byte, and gives the digits scaled to nine
      places for k up to 9 and 0 from ten on. */
  lemma FallbackOfRun(s: seq<byte>, k: nat)
    requires |s| > 20 && 20 + k <= |s| && AllDigits(s[20..20 + k])
    requires 20 + k == |s| || !IsAsciiDigit(s[20 + k])
    ensures FallbackFraction(s) == (if k <= 9 then DecimalValue(s[20..20 + k]) * Pow10(9 - k) else 0, 20 + k)
  {
    assert forall j | 20 <= j < 20 + k :: s[j] == s[20..20 + k][j - 20];
    DigitRunEndAt(s, 20, 20 + k);
  }

  /** k fraction bytes that are not all digits and no zone start, then
      'Z', for a k (1, 3, 4, 6 or 7) at which no earlier case reads past the
      end: atoiK gives -1 and the fast path multiplies it by its scale,
      which is not 1. */
  lemma NonDigitFractionValue(s: seq<byte>, b: seq<byte>)
    requires 1 <= |b| <= 8 && |s| == 21 + |b| && !FastPanics(|b|, 1)
    requires s[20..20 + |b|] == b && !AllDigits(b) && forall j | 0 <= j < |b| :: !IsZoneStart(b[j])
    requires CommaOrPeriod(s[19]) && s[20 + |b|] == UpperZ
    ensures Fraction(s) == Ok((-(FastScale(|b|) as int), 20 + |b|))
  {
    var k := |b|;
    assert forall p | 20 <= p < 20 + k :: s[p] == b[p - 20];
    FastSwitchAt(s, k, 1);
    assert b[..k] == b;
    assert AtoiFixed(b, k) == -1;
    assert FastScale(k) != 1;
  }

  /** A trailing 'Z' with no sign in the five bytes before it is offset 0,
      sign +1, wherever the fraction left tzIdx. */
  lemma TrailingUtc(s: seq<byte>, tzIdx: nat)
    requires |s| >= 19 && s[|s| - 1] == UpperZ
    requires !IsSign(s[|s| - 6]) && !IsSign(s[|s| - 5]) && !IsSign(s[|s| - 4]) && !IsSign(s[|s| - 2])
    ensures Zone(s, tzIdx) == Ok((0, 0)) && ZoneSign(s) == 1
  {
  }

  /** A fraction of k <= 8 bytes that are not all digits, then 'Z': the
      negated scale slips past the -1 check as the nsec. */
  lemma TailOfNonDigitFraction(s: seq<byte>, dt: DateTime, b: seq<byte>)
    requires 1 <= |b| <= 8 && |s| == 21 + |b| && !FastPanics(|b|, 1)
    requires s[20..20 + |b|] == b && !AllDigits(b) && forall j | 0 <= j < |b| :: !IsZoneStart(b[j])
    requires CommaOrPeriod(s[19]) && s[20 + |b|] == UpperZ
    requires s[16] == Colon && IsAsciiDigit(s[17]) && IsAsciiDigit(s[18])
    ensures Tail(s, dt) == Ok(Fields(dt, -(FastScale(|b|) as int), 0))
  {
    var k, n := |b|, |s|;
    NonDigitFractionValue(s, b);
    assert forall p | 20 <= p < 20 + k :: s[p] == b[p - 20];
    assert forall p | 16 <= p < n - 1 :: !IsSign(s[p]);
    TrailingUtc(s, 20 + k);
    TailOf(s, dt, -(FastScale(k) as int), 20 + k, 0, 0);
  }

  /** Bytes that start with the stamp of a valid date and time decode as
      their tail after those fields; the stamp ends in ':' and two digits. */
  lemma DecodeAfterStamp(s: seq<byte>, dt: DateTime, sep: byte)
    requires ValidDateTime(dt) && (sep == UpperT || sep == Space)
    requires |s| >= 19 && s[..19] == Stamp(dt, sep)
    ensures Decode(s) == Tail(s, dt)
    ensures s[16] == Colon && IsAsciiDigit(s[17]) && IsAsciiDigit(s[18])
  {
    var h := Stamp(dt, sep);
    DateFieldsOfStamp(dt, sep);
    StampLayout(dt, sep);
    assert h[17] == h[17..19][0] && h[18] == h[17..19][1];
    assert s[16] == h[16] && s[17] == h[17] && s[18] == h[18];
    HeaderOfPrefix(s, h);
    DecodeByFields(s);
  }

  /** A stamp, a '.' or ',', k bytes that are not all digits and no zone
      start, and 'Z' decode, with nsec the negated scale of the k-digit case,
      for each k (1, 3, 4, 6 or 7) at which 'Z' makes no earlier case panic. */
  lemma NonDigitFraction(dt: DateTime, sep: byte, mark: byte, b: seq<byte>)
    requires ValidDateTime(dt) && (sep == UpperT || sep == Space) && CommaOrPeriod(mark)
    requires 1 <= |b| <= 8 && !FastPanics(|b|, 1) && !AllDigits(b)
    requires forall j | 0 <= j < |b| :: !IsZoneStart(b[j])
    ensures Decode(Stamp(dt, sep) + [mark] + b + [UpperZ]) == Ok(Fields(dt, -(FastScale(|b|) as int), 0))
  {
    var h := Stamp(dt, sep);
    var s := h + [mark] + b + [UpperZ];
    var k := |b|;
    assert s[..19] == h;
    assert s[19] == mark && s[20 + k] == UpperZ;
    assert s[20..20 + k] == b;
    DecodeAfterStamp(s, dt, sep);
    TailOfNonDigitFraction(s, dt, b);
  }

  /** `.a23Z` after any valid stamp decodes, with nsec -1_000_000. */
  lemma DotA23Z(dt: DateTime)
    requires ValidDateTime(dt)
    ensures Decode(Stamp(dt, UpperT) + [Dot] + [97, Zero + 2, Zero + 3] + [UpperZ]) ==
      Ok(Fields(dt, -1_000_000, 0))
  {
    var b: seq<byte> := [97, Zero + 2, Zero + 3];
    assert !IsAsciiDigit(b[0]);
    NonDigitFraction(dt, UpperT, Dot, b);
  }

  /** With no fraction at byte 19, a `±HH:MM` zone in the last six bytes
      is what the suffix switch reads, whatever stands before it. */
  lemma TailOfSuffixZone(s: seq<byte>, dt: DateTime, east: bool, hh: nat, mm: nat)
    requires |s| >= 26 && !CommaOrPeriod(s[19]) && hh <= 23 && mm <= 59
    requires s[|s| - 6..] == ZoneText(Extended(east, hh, mm))
    ensures Tail(s, dt) == Ok(Fields(dt, 0, ZoneOffset(Extended(east, hh, mm))))
  {
    var q := |s| - 6;
    var zt := s[q..];
    assert s[q] == zt[0] == SignByte(east) && s[q + 3] == zt[3] == Colon;
    assert s[q + 1..q + 3] == zt[1..3] == Digits(hh, 2);
    assert s[q + 4..q + 6] == zt[4..6] == Digits(mm, 2);
    ExtendedZone(s[..q], s, hh, mm);
    assert s[q + 1] == Digits(hh, 2)[0];
    assert ZoneSign(s) == if east then 1 else -1;
    TailOf(s, dt, 0, 19, hh, mm);
  }

  /** With no fraction, whatever bytes stand between the seconds and a
      `±HH:MM` zone are skipped: the suffix switch finds the zone. */
  lemma JunkBeforeExtendedZone(dt: DateTime, sep: byte, junk: seq<byte>, east: bool, hh: nat, mm: nat)
    requires ValidDateTime(dt) && (sep == UpperT || sep == Space)
    requires |junk| >= 1 && !CommaOrPeriod(junk[0]) && hh <= 23 && mm <= 59
    ensures Decode(Stamp(dt, sep) + junk + ZoneText(Extended(east, hh, mm))) ==
      Ok(Fields(dt, 0, ZoneOffset(Extended(east, hh, mm))))
  {
    var h := Stamp(dt, sep);
    var zt := ZoneText(Extended(east, hh, mm));
    var s := h + junk + zt;
    assert s[..19] == h && s[19] == junk[0] && s[|s| - 6..] == zt;
    DecodeAfterStamp(s, dt, sep);
    TailOfSuffixZone(s, dt, east, hh, mm);
  }
}
