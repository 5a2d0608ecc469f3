# cron-parser field expansion, in Dafny

This project models the cron expression parser of `internal/cron/parser.go`. It takes one
argument such as `*/15, 0, 1,15, *, 1-5, /usr/bin/find` and splits it on `", "` into six
fields: minute, hour, day of month, month, day of week and command. Each time field
is then expanded over its domain into a sequence of decimal strings. The first field that
fails is reported as an error.

Modules:

- `Wrappers`: `Option` and a `Result` that works with `:-`.
- `Text`: the parts of Go's `strings` and `regexp` packages that the parser uses.
  - The allowed characters of each anchored `^[class]*$` pattern.
  - `strings.TrimRight(s, ",")`.
  - `strings.Split`, together with its inverse `strings.Join`.
- `Decimal`: `strconv.FormatInt` and `strconv.ParseInt` in base 10, with the round trip
  between them.
- `Runs`: the two counting loops of the parser.
  - `getValues` becomes the method `GetValues`.
  - The step loop becomes the method `StepValues`.
  - Each method is proved equal to a specification function (`Values`, `Strided`). The
    parser functions use those functions.
- `Cron`: the parser.
  - `ParseString`, `parseCommand`, `parseDayOfWeek` and `convertStringToNumber`.
  - `parseTime`, with its step and range branches as separate functions.
  - The errors form the datatype `ParseError`. `Count` is the "wrong number of elements"
    error. `InvalidDayString` is the unknown-day-name error. The other six stand for the
    parser's global error values.
- `CronProperties`: what the parser promises, stated for every input of a given shape.
- `CronExamples`: the cases of `internal/cron/parser_test.go`, derived from those general
  lemmas.

The model does what `parser.go` does, including where that differs from what one might
expect:

- Every trailing comma is trimmed, not only the last one.
- The left side of a step is ignored.
- A left range operand that is not a number reads as 0, because the second `ParseInt`
  overwrites the error of the first.
- The wrapped range has no check that the left operand is below the upper bound.
- A range reads only its first two `-`-separated operands.
- Lists and single values come back verbatim, with no numeric or domain check.
- An unknown day name yields the day-name error, not the day-of-week error.
- The test at `internal/cron/parser_test.go:122-127` expects the minute range `10-1` to
  be rejected. The code accepts it as a wrapped range, and the model follows the code
  (`CronExamples.RangeTenToOneWraps`).

## Model

| member | source | states |
|---|---|---|
| Runs.GetValues | internal/cron/parser.go:241-248 | the loop builds exactly `Values(min, max)`, the decimal strings of min, min+1, ..., max-1 |
| Runs.ValuesDecode | internal/cron/parser.go:241-248 | `Values(lo, hi)` has hi - lo elements (none when lo >= hi), and its k-th element parses back to lo + k |
| Runs.ValuesCanonical | internal/cron/parser.go:244 | for non-negative numbers, every token is a non-empty digit string with no leading zero |
| Runs.StepValues | internal/cron/parser.go:190-196 | the step loop yields the elements of the domain run at positions 0, step, 2*step, ... (`Strided`) |
| Runs.StridedAt | internal/cron/parser.go:192-193 | position k of a strided selection exists exactly when start + k*step is inside the sequence, and then holds that element |
| Decimal.FormatInt | internal/cron/parser.go:244 | `strconv.FormatInt(n, 10)`: a non-negative number is a digit string with no leading zero, a negative one is `-` followed by such a string; `ParseFormat` shows that it reads back as n, and `ValuesCanonical` that the parser's tokens have this form |
| Decimal.FormatNat | internal/cron/parser.go:244 | the base-10 text of a number is a non-empty digit string whose first digit is 0 only for the number 0 |
| Decimal.ParseInt | internal/cron/parser.go:185-188 | succeeds exactly on an optional sign followed by one or more digits |
| Decimal.ParseFormat | internal/cron/parser.go:185 | parsing the formatted text of any integer gives back that integer |
| Decimal.DigitsValueFormatNat | internal/cron/parser.go:244 | reading back the digits of n gives n |
| Decimal.ParseDigits | internal/cron/parser.go:202-203 | a non-empty digit string, leading zeros included, parses to the number its digits denote |
| Decimal.DigitsValueLeadingZeros | internal/cron/parser.go:202-203 | zeros written in front of a digit string do not change the number it denotes |
| Decimal.ParseLeadingZeros | internal/cron/parser.go:185 | zeros written in front of a number, with or without a sign, do not change the value parsed |
| Decimal.FormatNatDigitsValue | internal/cron/parser.go:244 | a digit string without a leading zero is the formatted text of the number it denotes |
| Text.TrimRightCommas | internal/cron/parser.go:161 | the result is a prefix of the input that does not end in a comma, and everything removed is commas |
| Text.TrimRightCommasIdempotent | internal/cron/parser.go:98 | trimming twice is trimming once |
| Text.Split | internal/cron/parser.go:37 | `strings.Split`, also used at lines 111, 179, 200 and 235, gives at least one piece; `JoinSplit` shows that the pieces joined by the separator give back the string, `SplitJoin` that separator-free pieces come back from their join, and `SplitCharParts` that a one-character split has one piece more than the character's occurrences, none holding it |
| Text.JoinSplit | internal/cron/parser.go:37 | joining the pieces of a split with the same separator gives back the string |
| Text.SplitJoin | internal/cron/parser.go:37 | splitting pieces joined by a separator, none of which contains or runs into it, gives back the pieces |
| Text.SplitCharParts | internal/cron/parser.go:179-181 | a split on one character gives one more piece than there are occurrences, and no piece contains the character |
| Cron.ParseCommand | internal/cron/parser.go:83-95 | accepted exactly when there is a first token made only of `[a-zA-Z 0-9,-/.]`; then returned unchanged, otherwise the command error |
| Cron.DayNumber | internal/cron/parser.go:139-158 | succeeds exactly on `MON` ... `SUN`, giving the decimal of the name's position, and otherwise fails with the day-name error |
| Cron.ParseTime | internal/cron/parser.go:160-239 | every failure is the field's own error |
| Cron.ParseStep | internal/cron/parser.go:176-197 | every failure of the step form is the field's own error |
| Cron.ParseRange | internal/cron/parser.go:199-232 | every failure of the range form is the field's own error |
| Cron.ParseDayOfWeek | internal/cron/parser.go:97-137 | every failure is the field's error or the day-name error |
| CronProperties.WildcardExpandsDomain | internal/cron/parser.go:172-174 | `*`, after trailing commas are trimmed, gives exactly the domain run `Values(min, max)`: max - min tokens with the k-th reading min + k |
| CronProperties.RejectsEmptyOrForeign | internal/cron/parser.go:161-170 | a field is accepted only if, once trimmed, it is non-empty and uses only `0-9 , * - /` |
| CronProperties.StepForm | internal/cron/parser.go:176-197 | `x/y` ignores x; a divisor that is not an integer fails; a divisor N >= 1 keeps every N-th domain value |
| CronProperties.StepEveryNth | internal/cron/parser.go:176-196 | `x/N` gives one token for each k with min + k*N < max, and the k-th token is min + k*N |
| CronProperties.StridedValues | internal/cron/parser.go:190-194 | the k-th element of the strided domain run is min + k*N, and it exists exactly when min + k*N < max |
| CronProperties.TooManySlashes | internal/cron/parser.go:179-183 | two or more `/` fail with the field's error |
| CronProperties.RangeExpansion | internal/cron/parser.go:199-232 | `x-y` with any two non-empty digit strings (leading zeros allowed) and A, B their values fails unless A >= min and B + 1 <= max; then A <= B gives A..B, and A > B gives A..max-1 followed by min..B |
| CronProperties.NumericRange | internal/cron/parser.go:199-232 | the same outcome for operands written in canonical decimal |
| CronProperties.RangeLength | internal/cron/parser.go:223-231 | for digit strings x, y whose values A, B satisfy min <= A <= B < max, `x-y` gives `Values(A, B + 1)`: B - A + 1 tokens, the k-th reading A + k |
| CronProperties.WrapIsCircular | internal/cron/parser.go:208-220 | for min <= B < A < max, the wrapped range is the domain read circularly from A, k-th token min + (A - min + k) mod (max - min) |
| CronProperties.BadLeftOperandReadsAsZero | internal/cron/parser.go:202-204 | a left operand that is not a number behaves exactly as `0`, whatever the right operand is (so `-05` is `0-05`) |
| CronProperties.BadRightOperandFails | internal/cron/parser.go:203-206 | a right operand that is not a number fails with the field's error |
| CronProperties.RangeReadsTwoOperands | internal/cron/parser.go:200-203 | two range fields with the same first two operands give the same result |
| CronProperties.RangeIgnoresExtraOperands | internal/cron/parser.go:200-203 | `x-y-z` is expanded as `x-y` whenever the middle operand is empty or does not end in a comma |
| CronProperties.BadMiddleOperandFails | internal/cron/parser.go:203-206 | `x-y-z` whose middle operand is not a number (empty, or ending in a comma) fails with the field's error |
| CronProperties.ListVerbatim | internal/cron/parser.go:234-236 | a comma list without `/` or `-` comes back as its pieces: they join back to the field, there is one more piece than there are commas, and no piece holds a comma |
| CronProperties.SingleVerbatim | internal/cron/parser.go:238 | any other field comes back as itself, with no numeric or domain check |
| CronProperties.ExpandedTokensInDomain | internal/cron/parser.go:172-232 | every token produced by `*`, step or range parses to a number in [min, max) |
| CronProperties.TrailingCommasIgnored | internal/cron/parser.go:161 | with the trim of line 98 in the day-of-week parser, both the time-field and the day-of-week parser give the same result for a field and for the field with its trailing commas removed |
| CronProperties.DayOfWeekRejectsEmptyOrForeign | internal/cron/parser.go:97-107 | the day-of-week field fails with its own error when, once trimmed, it is empty or holds a character outside `a-z A-Z 0-9 , * - /`; it succeeds only when neither holds |
| CronProperties.DayNameSingle | internal/cron/parser.go:125-131 | a single day name gives the one token of its number |
| CronProperties.DayNameRangeForm | internal/cron/parser.go:109-123 | `X-Y` made of letters is the numeric range of the two day numbers when both are day names, and otherwise the day-name error |
| CronProperties.DayNameRange | internal/cron/parser.go:110-123 | a range of two day names expands like the numeric range of their positions, wrapping when the first comes later |
| CronProperties.DayNameRangeIgnoresExtraOperands | internal/cron/parser.go:110-118 | a day range `X-Y-Z` made of letters is parsed exactly as `X-Y` |
| CronProperties.UnknownDayName | internal/cron/parser.go:126-129 | a single word that is not a day name fails with the day-name error |
| CronProperties.DayOfWeekNumericFallback | internal/cron/parser.go:134-136 | a day field that is not all letters and hyphens is expanded exactly like a numeric field |
| Cron.ParseString | internal/cron/parser.go:31-81 | a parsed schedule comes from one argument split into six fields, and its command is the sixth field, made only of allowed characters; the error cases are stated by `CountError` and `FirstError`, and the success value by `ParseSplitFields` and `ParseJoinedFields` |
| CronProperties.CountError | internal/cron/parser.go:33-41 | the count error occurs exactly when there is not one argument that splits into six fields |
| CronProperties.FirstError | internal/cron/parser.go:43-71 | each field's error occurs exactly when all earlier fields succeed and that field fails; a failing day-of-week field passes on its own error unchanged, so an unknown day name reaches the caller as the day-name error |
| CronProperties.ParseSplitFields | internal/cron/parser.go:37-80 | with six fields, the line parses exactly when each field does, and the schedule holds each field's expansion with the command unchanged |
| CronProperties.ParseJoinedFields | internal/cron/parser.go:37-80 | six joined fields parse exactly when each field does, and the schedule holds each field's expansion with the command unchanged |
| CronExamples.MinuteEveryFifteen | internal/cron/parser_test.go:35 | `*/15` over the minutes is 0, 15, 30, 45 |
| CronExamples.AllMonths | internal/cron/parser_test.go:38 | the month run is 1 to 12 |
| CronExamples.MondayToFriday | internal/cron/parser_test.go:57-69 | `MON-FRI` is 0 to 4 |
| CronExamples.Wednesday | internal/cron/parser_test.go:70-82 | `WED` is 2 |
| CronExamples.ThursdayToMonday | internal/cron/parser_test.go:83-95 | `4-0` is 4, 5, 6, 0 |
| CronExamples.RangeTenToOneWraps | internal/cron/parser_test.go:122-127 | the code accepts the minute range `10-1` as 10 to 59 followed by 0 and 1, although the test expects a failure |
| CronExamples.RangesOutsideDomain | internal/cron/parser_test.go:128-139 | `1-61` fails for the minute and `0-15` for the day of month |
| CronExamples.DoubleStepRejected | internal/cron/parser_test.go:140-145 | `*/30/2` fails with the minute error |
| CronExamples.StrayCharactersRejected | internal/cron/parser_test.go:146-205 | empty fields and fields holding `.` fail with their field's error, the day of week included |
| CronExamples.EmptyLeftOperand | internal/cron/parser.go:202-203 | `-05` as a minute range is 0 to 5 |
| CronExamples.BadMiddleOperands | internal/cron/parser.go:203-206 | `5--3` and `5-1,-3` as minutes fail with the minute error |
| CronExamples.LeadingZeroRange | internal/cron/parser.go:202-203 | `05-10` as a minute range is read as 5 to 10 |
| CronExamples.SingleOutOfDomainKept | internal/cron/parser.go:238 | `99` as a minute comes back as `["99"]` |
| CronExamples.ValidExpression | internal/cron/parser_test.go:31-43 | the first valid expression of the tests parses to the expected schedule |
| CronExamples.WrongFieldCount | internal/cron/parser_test.go:19-30 | five or seven fields without spaces are the count error |
| CronExamples.CommandRejected | internal/cron/parser.go:68-71 | with the time fields accepted, a command outside the allowed characters is the command error |
| CronExamples.StarCommandRejected | internal/cron/parser_test.go:206-211 | a command of `*` is the command error |

## Left out

- The entry point in `main.go`, which reads the process arguments, prints the schedule and exits, is I/O and is not part of this model.
- The `regexp` engine: each anchored pattern at `parser.go:88, 100, 109, 163` is modelled as a character-class predicate over the whole string.
- `strings.Contains(value, c)` for a one-character `c` is modelled as `c in value`.
- 64-bit integers are not modelled. `ParseInt` range errors and overflow of `rightValue + 1` near the largest int64 cannot happen with Dafny's unbounded `int`.
- Error messages and the identity of the global error values are replaced by the `ParseError` datatype.
- Cron.ParseStep: a divisor below 1 over a non-empty domain gives the field's error. The source loops forever on `0` and panics on a negative index for `*/-1`. Over an empty domain both give the empty sequence.
- Runs.StepValues: requires a step of at least 1, because the source's loop with a smaller step does not finish normally.
- Cron.ParseTime, Cron.ParseStep, Cron.ParseRange, Cron.ParseDayOfWeek: their own contracts state only which error a failure carries. What they compute is stated by the lemmas of `CronProperties`, one per grammar form.
- The test cases for `*/30` and for the all-star expression are not restated as lemmas. They follow from `CronProperties.StepEveryNth` and `CronProperties.WildcardExpandsDomain`.
