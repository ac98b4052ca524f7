# parsetime in Dafny

A model of `parsetime.go`, the fast timestamp decoder of the Go package
`parsetime`, with proofs about it. The decoder takes apart a byte string
shaped like the date-time of RFC 3339 section 5.6,
`YYYY-MM-DD[T| ]HH:MM:SS[.frac][Z|±HH:MM|±HHMM]`, at fixed offsets. It
produces the tuple it hands to `time.Date` and `t.Add`: year, month, day,
hour, minute, second and nanoseconds for `time.Date`, and the zone offset in
seconds east of UTC, which `t.Add` subtracts.

Every call ends in one of three `Outcome`s:

- `Ok`: the decoded `Fields`;
- `Err`: the package's parse error;
- `Panic`: a Go index or slice bound out of range.

Panics are reachable in the code, so the model keeps them as a case of their own.

Modules, one per part of the program:

- `Bytes` (bytes.dfy): Go bytes and their wrap-around subtraction. It also holds the ASCII constants, and the decimal value and zero-padded form of digit strings.
- `Calendar` (calendar.dfy): `isLeap` with Go's truncated `%`, the `daysBefore` table, and `daysIn`.
- `StdTime` (stdtime.dfy): the integer parsers copied from Go's `time` package: `isDigit`, `commaOrPeriod`, `leadingInt`, `atoi` and `parseNanoseconds`. `leadingInt` and `parseNanoseconds` are methods with their loops, each proved equal to a function that states what it computes.
- `ParseTime` (parsetime.dfy): `atoi2MinMax`, `atoi1`…`atoi9` (one function `AtoiFixed` of the width), and `parse`. `parse` is the method `Parse`, which updates its locals step by step as the Go code does. It is split into methods per section of the source, and each method is proved equal to a function of the input. `Decode` is the function for the whole of `parse`.
- `ParseTimeFacts` (parsetime_facts.dfy): what `parse` does on a header written from fields (`Stamp`), a fraction (`FracForm`) and a zone (`ZoneForm`). It covers each part separately, and then the whole.
- `ParseTimeRanges` (parsetime_ranges.dfy): what every successful parse returns, whatever its input.
- `ParseTimeCases` (parsetime_cases.dfy): round trips, and the agreement of zone forms. It also has examples, and the inputs where the code differs from what its tests and examples expect.

The model follows the code wherever the code and the package's tests or examples disagree:

- A date without a time (example_test.go:17) is the parse error. Everything shorter than 19 bytes is (`ShortInputRejected`).
- A date-time without a zone (example_test.go:15-16) is the parse error. Its sign stays 0 (`ZonelessRejected`).
- A `±HH` zone (parsetime_test.go:44) panics (`HourOnlyPanics`).
- Ten or more fraction digits (parsetime_test.go:83) are accepted, with 0 ns (`TenDigitFraction`).
- The zone hour may be up to 23 both east and west of UTC.
- A month outside 1..12 is not rejected. It panics in `daysIn`.
- Two fraction digits are scaled by 10^6 rather than 10^7. `.12` gives 12 ms (`TwoDigitFractionShort`, `FracNanosVersusIntended`).
- One, three, four, six or seven fraction bytes that are not all digits and contain no sign, 'z' or 'Z', then 'Z', leave the negated scale factor as nsec, and the result is accepted (`NonDigitFraction`). These are the lengths at which 'Z' does not make an earlier case read past the end; after two, five or eight bytes the parse panics (`ZoneAfterFraction`, `FastPanicsByZoneLength`).
- When the byte after the seconds is neither '.' nor ',', the bytes between the seconds and a `±HH:MM` zone are never looked at (`JunkBeforeExtendedZone`).
- In the fast path, a zone straight after 2, 5 or 8 digits (`Z`) or after 1 or 4 digits (`±HHMM`) makes an earlier case read one byte past the end (`ZoneAfterFraction`).

## Model

| member | source | states |
|---|---|---|
| Bytes.WrappedDigitIsAscii | parsetime.go:154-155 | the wrapped test `int(c-'0')` in 0..9 accepts exactly the bytes '0'..'9', and then equals `c-'0'` |
| Calendar.GoRemZero | parsetime.go:351 | Go's truncated `%` by 4, 100 or 400 is 0 exactly when the divisor divides the year, negative years included |
| Calendar.IsLeap | parsetime.go:350-352 | isLeap holds exactly for the Gregorian leap years, negative years included |
| Calendar.DaysBeforeShape | parsetime.go:354-371 | the table `Calendar.DaysBefore` (daysBefore) has 13 entries from 0 to 365, strictly increasing, and each step is the length of that month in a non-leap year |
| Calendar.DaysIn | parsetime.go:343-348 | daysIn panics exactly for a month outside 1..12 and otherwise gives the Gregorian length of the month, 29 for February of a leap year |
| StdTime.IsDigit | parsetime.go:269-275 | isDigit is true exactly for an index inside s that holds an ASCII digit, is false past the end, and panics exactly for a negative index |
| StdTime.LeadingInt | parsetime.go:323-341 | leadingInt gives the value of the leading run of digits and the rest of s, or the error when that value is above 1<<63 |
| StdTime.LeadingDecimalOfDigits | parsetime.go:323-341 | a digit string followed by a non-digit or the end is split right after its digits, with their value, or is the error above 1<<63 |
| StdTime.CommaOrPeriod | parsetime.go:302-304 | commaOrPeriod holds exactly for '.' and ',', and neither is a digit or a sign |
| StdTime.Atoi | parsetime.go:306-321 | atoi never panics, and every value it returns fits a 64-bit int |
| StdTime.AtoiAccepts | parsetime.go:306-321 | atoi succeeds exactly when everything after one optional sign is a digit and the magnitude is at most 1<<63; it never panics and its value fits a 64-bit int |
| StdTime.AtoiOfDigits | parsetime.go:306-321 | decimal strings of any width read back through atoi: the value unsigned or with '+', and its negation with '-', up to 1<<63 |
| StdTime.AtoiWrapsAtTwoTo63 | parsetime.go:313 | the unsigned string of 1<<63 reads as -(1<<63), because `int(q)` wraps |
| StdTime.AtoiOfDigitString | parsetime.go:306-321 | an unsigned digit string below 1<<63 reads as its value |
| StdTime.ParseNanoseconds | parsetime.go:277-300 | parseNanoseconds panics on an empty value and on a cut past its end, is the error without a leading '.' or ',' or when atoi fails, flags a negative value, and otherwise scales the value by ten once per missing digit |
| StdTime.NanosecondsOfDigits | parsetime.go:277-300 | a separator and digits give the first nine digits scaled to nine places, below 10^9 |
| StdTime.AtoiNonNegativeBound | parsetime.go:306-321 | a non-negative value from atoi is below 10 to the power of its input's length |
| StdTime.NanosecondsRange | parsetime.go:277-300 | on every input, a decoded fraction lies in [-(1<<63), 10^9), so the `ns *= 10` loop never wraps, and the range text is set exactly for a negative value |
| StdTime.NanosecondsSignQuirk | parsetime.go:286-292 | a sign after the separator reaches atoi: ".-5" gives -5 with the range flag set, and ".+5" gives 50000000 |
| ParseTime.PlaceSumIsDecimal | parsetime.go:165-265 | the place-value sum atoiN spells out equals the decimal value of its digits |
| ParseTime.AllWrappedDigits | parsetime.go:165-265 | atoiN's chain of wrapped tests passes exactly when every byte is an ASCII digit |
| ParseTime.AtoiFixed | parsetime.go:165-265 | atoiN is -1, or the decimal value of its N bytes, below 10^N; it is not -1 exactly when all N bytes are digits |
| ParseTime.Atoi2MinMax | parsetime.go:152-163 | atoi2MinMax is the two-digit value when both bytes are digits and the value lies in [min, max], and -1 otherwise |
| ParseTime.Decode | parsetime.go:19-150 | a successful parse passed the delimiter check and carries the date and time fields of the first 19 bytes |
| ParseTime.Parse | parsetime.go:19-150 | parse gives `Decode(s)`: the delimiter check, the fields, the fraction, the zone, the sign and the final check, with a panic wherever the Go code reads past the end |
| ParseTime.ReadFields | parsetime.go:28-36 | the field reads give the six fields, the parse error if any is -1, or the panic of daysIn on a bad month |
| ParseTime.ScanTail | parsetime.go:38-145 | everything after the fields: the fraction, the zone, the sign and the final check on nsec, tzH, tzM and tzSign |
| ParseTime.ScanFraction | parsetime.go:38-90 | the fraction is 0 at tzIdx 19 without a separator; otherwise it is the fast path's result, or the fallback's when the fast path gave -1 and byte 20 is a digit |
| ParseTime.FastPath | parsetime.go:40-72 | the nine-case first-match switch in the source's order, including the read one past the end when the length is 20+k |
| ParseTime.FractionScan | parsetime.go:74-89 | the fallback loop stops at the first non-digit from byte 20 on and gives its value times `mult`, which is 10^(9-k) for k digits and 0 from ten on |
| ParseTime.MultStep | parsetime.go:83 | each `mult /= 10` takes 10^(9-n) to 10^(9-(n+1)), and 0 to 0 |
| ParseTime.ZoneScan | parsetime.go:92-127 | the suffix switch on the last six bytes, then the forward fallback from tzIdx when it left -1, which panics when it reads past the end |
| ParseTimeFacts.StampLayout | parsetime.go:20 | a header written from fields has the fields at offsets 0, 5, 8, 11, 14 and 17, '-' at 4 and 7, the separator at 10, and ':' at 13 and 16 |
| ParseTimeFacts.AtoiFixedOfDigits | parsetime.go:165-265 | atoiN reads back every N-digit zero-padded number |
| ParseTimeFacts.Atoi2MinMaxOfDigits | parsetime.go:152-163 | atoi2MinMax reads back a two-digit number inside [min, max] and gives -1 outside it |
| ParseTimeFacts.DateFieldsOfStamp | parsetime.go:20-36 | a header written from fields passes the delimiter check. It decodes to its own fields when they form a valid date and time, is the parse error when they don't, and panics for a month outside 1..12 |
| ParseTimeFacts.DateFieldsSound | parsetime.go:28-36 | conversely, a header that decodes is the stamp of its decoded fields, and those form a valid date and time with a four-digit year |
| ParseTimeFacts.HeaderOfPrefix | parsetime.go:20-36 | only the first 19 bytes decide the delimiter check and the fields |
| ParseTimeFacts.DecodeByFields | parsetime.go:28-36 | past the delimiter check, parse panics or fails as the fields do, and is otherwise its tail on them |
| ParseTimeFacts.CaseIndexOfEntry | parsetime.go:42-69 | each digit count 1..9 has exactly one fast-path case |
| ParseTimeFacts.FastSwitchRun | parsetime.go:42-72 | cases that neither panic nor match hand the switch on to the next |
| ParseTimeFacts.FastSwitchAt | parsetime.go:42-72 | k bytes without a zone start and then a zone start: the k-digit case reads and scales the k bytes, unless an earlier case reads past the end |
| ParseTimeFacts.FastSwitchNoZone | parsetime.go:42-72 | one to nine bytes after the separator with no zone start and nothing after them always panic |
| ParseTimeFacts.FastSwitchMiss | parsetime.go:42-72 | with no zone start in bytes 21..29 of a longer input, no case matches and none panics, so nsec is -1 |
| ParseTimeFacts.FastScaleIsPow10 | parsetime.go:43-69 | the fast path's factor for k digits is 10^(9-k) for every k except 2, where it is 10^6 and not 10^7 |
| ParseTimeFacts.FastPanicsByZoneLength | parsetime.go:43-69 | a read past the end happens after 'Z' exactly for 2, 5 and 8 digits, after `±HHMM` exactly for 1 and 4, and never after `±HH` or `±HH:MM` |
| ParseTimeFacts.ShortFraction | parsetime.go:40-72 | up to nine digits straight before a zone either panic or give their value times the case's factor, with tzIdx at the zone |
| ParseTimeFacts.LongFraction | parsetime.go:74-89 | ten digits or more miss every fast case, and the fallback gives 0 with tzIdx at the first non-digit |
| ParseTimeFacts.FractionOfFast | parsetime.go:75 | past the separator, a fast-path result other than -1 is the fraction, without the fallback |
| ParseTimeFacts.NoFractionOf | parsetime.go:39-40 | without a separator at byte 19 the fraction is 0 and the zone is looked for at byte 19 |
| ParseTimeFacts.ShortFractionOf | parsetime.go:40-72 | up to nine digits before a zone text give the fraction's nanoseconds with tzIdx at the zone, or the fast path's panic |
| ParseTimeFacts.LongFractionOf | parsetime.go:74-89 | ten digits or more before a zone text give 0 with tzIdx at the zone |
| ParseTimeFacts.FractionOf | parsetime.go:38-90 | on a header, a fraction and a zone, the fraction part gives the fraction's nanoseconds with tzIdx at the zone, or the fast path's panic |
| ParseTimeFacts.ExtendedZone | parsetime.go:94-98 | the suffix switch reads `±HH:MM` from the last six bytes, with -1 for an hour past 23 or a minute past 59 |
| ParseTimeFacts.BasicZone | parsetime.go:113-127 | `±HHMM` goes to the forward fallback, which reads its hour and minute from tzIdx |
| ParseTimeFacts.ZoneOfText | parsetime.go:92-139 | after the seconds or a fraction, 'Z', `±HH:MM` and `±HHMM` decode to their hour, minute and sign |
| ParseTimeFacts.HourOnlyZonePanics | parsetime.go:113-122 | `±HH` matches neither zone switch, and the forward fallback reads the byte after the hour, past the end |
| ParseTimeFacts.QuietEndOfFields | parsetime.go:130-134 | after valid fields and a fraction, the last bytes hold no sign and the second to last no colon |
| ParseTimeFacts.TailOf | parsetime.go:141-145 | once the fraction and the zone are known, a -1 or a sign of 0 is the parse error, and otherwise the offset is the signed sum of the zone in seconds |
| ParseTimeFacts.TailOfZone | parsetime.go:38-145 | the tail of parse on a header, a fraction and a zone text whose hour, minute and sign are known |
| ParseTimeFacts.TailVerdict | parsetime.go:141-145 | the tail's verdict given the fraction's outcome, the zone and the sign |
| ParseTimeFacts.DecodeOfPieces | parsetime.go:19-145 | parse on a header, a fraction and a zone text: the header's verdict, then the tail's |
| ParseTimeFacts.DecodeOfText | parsetime.go:19-145 | parse on any 19 header bytes, a fraction and a 'Z', `±HH:MM` or `±HHMM` zone |
| ParseTimeFacts.DecodeOfStamp | parsetime.go:19-145 | parse on a stamp, a fraction and a zone panics for a month outside 1..12 and is the parse error for other invalid fields; otherwise it gives the fast path's panic or the fields, the fraction's nanoseconds and the zone's offset |
| ParseTimeRanges.CaseScaleBound | parsetime.go:43-69 | every fast case's factor times 10^k is at most one second, and its negation is one of the values a non-digit fraction leaves |
| ParseTimeRanges.ScaledValue | parsetime.go:43-69 | an atoiK result times its factor is the negated factor or a value below one second |
| ParseTimeRanges.FastSwitchRange | parsetime.go:40-72 | the fast path gives -1, or an nsec below one second or a negated factor, with tzIdx inside s |
| ParseTimeRanges.FallbackRange | parsetime.go:74-89 | the fallback's `val*mult` is below one second, with tzIdx between 20 and the length |
| ParseTimeRanges.FractionRange | parsetime.go:38-90 | the fraction part gives -1, an nsec below one second, or a negated factor |
| ParseTimeRanges.ZoneRange | parsetime.go:92-127 | the zone part gives an hour in 0..23 or -1, and a minute in 0..59 or -1 |
| ParseTimeRanges.OffsetRange | parsetime.go:145 | a signed zone of at most 23:59 lies within ±86340 seconds and is a whole number of minutes |
| ParseTimeRanges.VerdictSound | parsetime.go:141-145 | the final check lets through only a sign of ±1, an hour and minute in range and an nsec in range, and builds the offset from them |
| ParseTimeRanges.TailSound | parsetime.go:38-145 | a tail that succeeds keeps the fields, has nsec in range, and found a sign of ±1, an hour in 0..23 and a minute in 0..59, whose signed sum is the offset |
| ParseTimeRanges.DecodeSound | parsetime.go:19-150 | any input that decodes passed the delimiter check, and its first 19 bytes are the stamp of a valid date and time with a four-digit year; nsec is below one second or a negated factor; the offset is within a day, in whole minutes |
| ParseTimeCases.IntendedNanos | parsetime.go:277-300 | the nanoseconds Go's time package makes of a fraction, always below one second |
| ParseTimeCases.IntendedIsParseNanoseconds | parsetime.go:277-300 | that reference value is what parseNanoseconds returns for the same bytes |
| ParseTimeCases.FracNanosVersusIntended | parsetime.go:43-89 | parse's nanoseconds equal the reference for one and three to nine digits; for two digits they are a tenth of it (equal only for zeros); from ten digits on they are 0 (right only when the first nine digits are zeros) |
| ParseTimeCases.TwoDigitFractionShort | parsetime.go:55-57 | `.12+08:00` after any valid stamp decodes to 12000000 ns, where the reference value is 120000000 |
| ParseTimeCases.TailResultInRange | parsetime.go:141-145 | for a zone in range, the tail gives the fields, the fraction's nanoseconds and the zone's own offset, unless the fast path panics |
| ParseTimeCases.RoundTrip | parsetime.go:19-145 | a valid date and time, a fraction and a 'Z', `±HH:MM` or `±HHMM` zone in range decode back to the fields, the fraction's nanoseconds and the zone's offset, unless the fast path panics; the nanoseconds are the reference ones except for two digits |
| ParseTimeCases.ZoneAfterFraction | parsetime.go:42-69 | after one to nine digits, 'Z' panics exactly for 2, 5 and 8 digits, `±HHMM` exactly for 1 and 4, and `±HH:MM` never |
| ParseTimeCases.ExtendedAndBasicAgree | parsetime.go:94-127 | `±HH:MM` and `±HHMM` decode alike wherever `±HHMM` does not make the fast path panic |
| ParseTimeCases.WestNegates | parsetime.go:130-134 | a '-' zone decodes to the negated offset of the same '+' zone, with the same fields and nanoseconds |
| ParseTimeCases.PlusEightExtended | parsetime.go:94-98 | `+08:00` after a valid stamp gives 28800 s |
| ParseTimeCases.PlusEightBasic | parsetime.go:113-127 | `+0800` after a valid stamp gives 28800 s |
| ParseTimeCases.MinusEightExtended | parsetime.go:133-134 | `-08:00` after a stamp with a space separator gives -28800 s |
| ParseTimeCases.ZoneHourBound | parsetime.go:96 | zone hours up to 23 are accepted: `+15:00` gives 54000 s, `+23:59` 86340 s, and `+24:00` is the parse error |
| ParseTimeCases.MinusThirteen | parsetime.go:96 | `-13:00` gives -46800 s, so the hour bound is the same west of UTC |
| ParseTimeCases.LeapDay | parsetime.go:30 | 29 February decodes exactly in the Gregorian leap years |
| ParseTimeCases.LeapDayExamples | parsetime.go:343-352 | 29 February decodes in 2000 and 2024 and is the parse error in 1900 and 2023 |
| ParseTimeCases.DayAndMonthRangeExamples | parsetime.go:29-30 | 30 February 2000 is the parse error, and month 13 panics in daysIn |
| ParseTimeCases.NineDigitFraction | parsetime.go:49-51 | nine fraction digits are read exactly as nanoseconds |
| ParseTimeCases.OneDigitFraction | parsetime.go:52-54 | `.1+00:00` gives 100000000 ns |
| ParseTimeCases.TenDigitFraction | parsetime.go:74-89 | ten or more fraction digits before 'Z' give 0 ns, not the parse error |
| ParseTimeCases.ZonelessRejected | parsetime.go:130-143 | a stamp with nothing after it is the parse error (its sign is 0), or a panic for a month outside 1..12 |
| ParseTimeCases.ShortFractionWithoutZone | parsetime.go:42-69 | up to nine digits with nothing after them make the fast path read past the end |
| ParseTimeCases.LongFractionWithoutZone | parsetime.go:74-115 | ten or more digits with nothing after them run the fallback to the end, and the forward zone fallback reads past it |
| ParseTimeCases.FractionWithoutZonePanics | parsetime.go:38-127 | any fraction with no zone after valid fields panics |
| ParseTimeCases.HourOnlyPanics | parsetime.go:102-122 | a `±HH` zone after valid fields panics |
| ParseTimeCases.FallbackOfRun | parsetime.go:74-89 | a run of k digits from byte 20 ends the fallback at its end and gives the digits scaled to nine places for k up to 9, and 0 from ten on |
| ParseTimeCases.NonDigitFractionValue | parsetime.go:43-69 | one, three, four, six or seven bytes (the lengths where 'Z' after them makes no earlier case panic) that are not all digits and hold no sign, 'z' or 'Z', then 'Z', give the negated factor of the matching case as nsec |
| ParseTimeCases.TrailingUtc | parsetime.go:105-107 | a trailing 'Z' with no sign in the five bytes before it gives offset 0 and sign +1, wherever tzIdx points |
| ParseTimeCases.TailOfNonDigitFraction | parsetime.go:141-145 | the negated factor passes the final check, which tests only for -1 |
| ParseTimeCases.DecodeAfterStamp | parsetime.go:19-36 | bytes that start with the stamp of a valid date and time decode as the tail on those fields |
| ParseTimeCases.NonDigitFraction | parsetime.go:43-69 | a stamp, a separator, one, three, four, six or seven bytes that are not all digits and hold no sign, 'z' or 'Z', and 'Z' decode, with nsec the negated factor |
| ParseTimeCases.DotA23Z | parsetime.go:55-57 | `.a23Z` after a valid stamp decodes, with nsec -1000000 |
| ParseTimeCases.TailOfSuffixZone | parsetime.go:94-98 | with no fraction, a `±HH:MM` zone in the last six bytes is read whatever stands before it |
| ParseTimeCases.JunkBeforeExtendedZone | parsetime.go:94-98 | with no fraction, any bytes between the seconds and a `±HH:MM` zone are skipped |
| ParseTimeCases.ShortInputRejected | parsetime.go:20-22 | fewer than 19 bytes, a date alone among them, are the parse error |

## Left out

- `time.Date` and `t.Add` (parsetime.go:147-148): standard-library calls that build and shift the instant. The model stops at the decoded tuple `Fields`, with the offset still unapplied.
- The `time.Local` location of the result: it only affects how the instant is shown.
- `Parse` (parsetime.go:15-17) only converts a string to bytes. The model always works on bytes, so `ParseTime.Parse` models `parse` on a slice whose capacity equals its length (see the capacity line below).
- `errParse` and the text of `rangeErrString` are reduced to `Err` and a flag.
- Slices are taken to have their capacity equal to their length, so `value[:10]` past the end panics just as a read would. In Go, the `[]byte` that `Parse` makes from a string may have spare capacity, filled with zero bytes. The minutes slice at parsetime.go:126 may then reach past the length without a panic. This happens for zones `±HHM`, `±HH:` and `±HH:M`, such as a stamp ending in `+080`. Go then reads a zero byte, `atoi2MinMax` gives -1, and the result is `errParse` (parsetime.go:141). The model gives `Panic` for these inputs.
- ParseTime.Atoi2MinMax: the `_ = s[1]` bound hint (parsetime.go:153) is a precondition (`|s| >= 2`). Every call in `parse` passes exactly two bytes, so the panic a shorter slice would raise is never reached.
- ParseTime.AtoiFixed: the `_ = s[N-1]` bound hint is a precondition (`N <= |s|`). `parse` always passes slices of exactly N bytes, so the panic a shorter slice would raise is never reached.
- ParseTime.FractionScan: `val` is an unbounded integer, not a wrapping Go `int`. From the tenth digit on `mult` is 0, so `nsec` is 0 either way.
- ParseTime.Parse is split into one method per section of `parse` (fields, fraction fast path and fallback, zone and sign). The locals they share are passed as parameters and results.
- The tests, examples and benchmarks (parsetime_test.go, example_test.go, benchmark_test.go): they depend on clocks, locations and formatting. parsetime_test.go calls `ParseInLocation`, which is not part of this model. Where they expect other behaviour than the code has, this is stated above.
