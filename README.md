# docs-br-js check digits in Dafny

This project models the core of `docs-br-js`, a small TypeScript library for
Brazilian taxpayer numbers:

- **CNPJ** (company number): 14 characters. These are twelve digits or
  upper-case letters followed by two modulo-11 check digits. The weights
  come from a shared cursor that cycles over `[9, 8, 7, 6, 5, 4, 3, 2]`.
- **CPF** (personal number): 11 digits. These are nine digits followed by
  two modulo-11 check digits, with the weight `L + 1 - i` at position `i`.
- The shared pieces:
  - the `Result` tagged union;
  - `IterCycle`, a cursor over a non-empty table that wraps in both
    directions.

Modules:

- `Common` (`common.dfy`):
  - `Option` (a value that may be `undefined`) and `Result`;
  - the digit helpers both number types use;
  - `JsRem`, JavaScript's truncating `%`;
  - `Cycle`, a specification of what successive `next()` calls hand out;
  - the class `IterCycle`, whose methods update `currentIndex` in place.
    `take` and `zip` are loops proved against `Cycle`.
- `Cnpj` (`cnpj.dfy`): `calculateDV` is both a pure function `CalculateDV`
  and a method `CalculateDVWithCursor`. The method drives an `IterCycle`
  exactly as the source drives its module-level `factorIter`, and is proved
  to compute the function whatever state the cursor was left in.
  `validate`, `calculateCheckDigits`, `generate`, `format` and
  `extractInfo` are built on the function.
- `Cpf` (`cpf.dfy`): the same scheme, with weights from the position.

The main results:

- `validate(p ++ dvs)` succeeds exactly when `dvs` are the digits that
  `calculateCheckDigits(p)` returns. This is `ValidateIffCheckDigits` and
  `CheckDigitsRoundTrip` in both number modules.
- Errors are reported in a fixed order: length, then characters, then
  check digits.
- Check digits always lie in 0..9, and a non-zero digit completes the
  weighted sum to a multiple of 11.
- `generate` always produces a valid number, so its `throw` is unreachable.
- The cursor obeys its wrap laws:
  - a skip is Euclidean modulo the length, whatever the sign of `n`;
  - whole laps are no-ops;
  - `skip(n)` undone by `skip(-n)` restores the cursor.

`getValueFromChar` maps a character to its code minus 48. So `'A'..'Z'` have
the values 17..42, not 10..35 as a letter-as-digit reading of the CNPJ would
suggest. The model follows the code.

## Model

`Result` (src/common.ts:1-19) is the datatype `Common.Result`. Its
constructors `Success` and `Failure` play the parts of
`createSuccessResult` and `createErrorResult`, and its fields `data` and
`error` those of `dados` and `erro`. The error enumerations `CnpjErrors`
(src/cnpj.ts:5-12) and `CpfErrors` (src/cpf.ts:5-12) are the datatypes
`Cnpj.CnpjError` and `Cpf.CpfError`, whose `Code()` gives each member's
string value, such as "invalid-length".

| member | source | states |
|---|---|---|
| Common.ValueFromChar | src/cnpj.ts:22 | `getValueFromChar` (also src/cpf.ts:15): digits get their value 0..9, upper-case letters 17..42, and only characters below '0' go negative |
| Common.DigitChar | src/cnpj.ts:104 | the character appended for a check digit is an ASCII digit whose value (code minus 48) is that digit: the inverse of `getValueFromChar` on 0..9 |
| Common.JsRem | src/common.ts:34 | JavaScript's `%`: result strictly between `-d` and `d`, equal to the Euclidean remainder for `n >= 0`, shifted down by `d` (or 0) for negative `n` |
| Common.IncrementIsEuclidean | src/common.ts:34 | `(len + cur + n % len) % len`, with JavaScript's `%` inside, equals `(cur + n)` taken Euclidean-mod `len` for every integer `n` |
| Common.Advanced | src/common.ts:33-35 | the new cursor position always lies in `0..len-1` and is `(cur + n)` Euclidean-mod `len` |
| Common.SkipWholeLaps | src/common.ts:46-49 | skipping `k * len` places, for any integer `k`, leaves the cursor where it was |
| Common.SkipThenUnskip | src/common.ts:46-49 | skipping `n` and then `-n` returns the cursor to its starting position |
| Common.CycleStep | src/common.ts:41-44 | handing out `n + 1` entries is one `next()` (the entry after the cursor) followed by `n` entries from the new position |
| Common.CycleSplit | src/common.ts:51-57 | handing out `a + b` entries is `a` entries followed by `b` entries from where the cursor then stands |
| Common.CyclePeriodic | src/common.ts:59-61 | when more entries are handed out than the table has, entry `i + len` repeats entry `i` |
| Common.IterCycle.constructor | src/common.ts:26-31 | on a non-empty table: the table is kept, the cursor is valid and stands on the last entry, so the first `next()` gives entry 0 |
| Common.IterCycle.Create | src/common.ts:26-27 | construction fails, with "must be a not empty iterable", exactly when the table is empty; otherwise it yields a fresh valid cursor before entry 0 |
| Common.IterCycle.IncrementIndexBy | src/common.ts:33-35 | the cursor stays in range and moves to `(old + n)` Euclidean-mod the length |
| Common.IterCycle.Reset | src/common.ts:37-39 | the cursor goes back to the last entry, whatever its state |
| Common.IterCycle.Next | src/common.ts:41-44 | the cursor moves one place, wrapping at the end, and the entry now under it is returned |
| Common.IterCycle.Skip | src/common.ts:46-49 | the cursor moves `n` places, wrapping in either direction, and the same object is returned |
| Common.IterCycle.Take | src/common.ts:51-57 | for `0 <= n < 2^32`: the `n` entries that `n` calls to `next()` give, with the cursor moved `n` places; any other `n` is not a valid array length and fails with "Invalid array length", leaving the cursor unchanged |
| Common.IterCycle.Zip | src/common.ts:59-61 | one pair per element of the input, pair `i` holding the entry `i + 1` places after the old cursor, with the cursor moved by the input's length |
| Cnpj.MatchesOldPattern | src/cnpj.ts:20 | `/^\d{14}$/`; every string it accepts the new pattern accepts too |
| Cnpj.MatchesNewPattern | src/cnpj.ts:21 | `/^[\dA-Z]{12}\d{2}$/` holds exactly when the string has 14 characters, its first twelve pass the pattern without check digits and the last two are digits |
| Cnpj.MatchesPatternWithoutDVs | src/cnpj.ts:64 | `/^[\dA-Z]{12}$/`; every character it accepts has a value in 0..42 |
| Cnpj.MatchesValidationPattern | src/cnpj.ts:43 | the pattern chosen by `onlyNumbers`: whatever it accepts passes the new pattern, and with `onlyNumbers` true it accepts digits only |
| Cnpj.Weights | src/cnpj.ts:33-34 | reset, `skip(8 - L % 8)` and `L` calls to `next()` give one weight per value, each between 2 and 9 |
| Cnpj.WeightsFromRight | src/cnpj.ts:29-34 | the character `j` places from the right gets weight `2 + j % 8`, so the last one always gets 2 |
| Cnpj.WeightsClosedForm | src/cnpj.ts:29-34 | reset, `skip(8 - L % 8)` and `L` calls to `next()` give the weights `2 + (L - 1 - i) % 8` |
| Cnpj.WeightsGrow | src/cnpj.ts:33-34 | the weights for `n + 1` characters are `2 + n % 8` followed by the weights for `n` characters: the skip places the cursor so that the existing weights stay put |
| Cnpj.WeightsEndOnLastFactor | src/cnpj.ts:33-34 | after the skip and the zip over `n` values the shared cursor stands on the table's last entry again |
| Cnpj.WeightsOfTwelve | src/cnpj.ts:29-34 | for twelve characters the weights are 5,4,3,2,9,8,7,6,5,4,3,2 |
| Cnpj.WeightsOfThirteen | src/cnpj.ts:29-34 | for thirteen characters the weights are 6,5,4,3,2,9,8,7,6,5,4,3,2 |
| Cnpj.WeightedSum | src/cnpj.ts:34 | the `reduce` fold of `factor * value`; over non-negative factors and values it is non-negative |
| Cnpj.CheckSumNonNegative | src/cnpj.ts:34-35 | non-negative values give a non-negative sum, so the truncating `%` agrees with the Euclidean one |
| Cnpj.CalculateDV | src/cnpj.ts:32-37 | the digit lies in 0..9; for a non-negative sum it is 0 exactly when the sum is 0 or 1 modulo 11, and otherwise adding it makes the sum a multiple of 11 |
| Cnpj.CheckDigitsCompleteSum | src/cnpj.ts:32-37 | in every valid number each check digit is 0 exactly when the weighted sum before it is 0 or 1 modulo 11, and otherwise completes that sum to a multiple of 11 |
| Cnpj.CalculateDVWithCursor | src/cnpj.ts:30-37 | driving the shared cursor (reset, skip, zip, fold) gives `CalculateDV` of the input from any prior cursor state, and leaves the cursor before entry 0 |
| Cnpj.FirstSampleSum | src/cnpj.test.ts:19 | the weighted sum of "482172160001" is 184 |
| Cnpj.SecondSampleSum | src/cnpj.test.ts:19 | the weighted sum of "482172160001" followed by its first check digit 3 is 166 |
| Cnpj.SampleIsCnpj | src/cnpj.test.ts:6 | "48217216000130" has the new pattern and both check digits |
| Cnpj.Validate | src/cnpj.ts:39-62 | length other than 14 gives INVALID_LENGTH; then a pattern failure (the digits-only pattern only when `onlyNumbers` is `true`) gives INVALID_CHARS; then a wrong character at index 12 or 13 gives INVALID_CHECK_DIGITS; success returns the input unchanged |
| Cnpj.CalculateCheckDigits | src/cnpj.ts:66-83 | length other than 12 gives INVALID_LENGTH, then a character outside `[0-9A-Z]` gives INVALID_CHARS; otherwise two digits in 0..9, and the input with them appended is a valid number |
| Cnpj.AppendedDigitsAreCheckDigits | src/cnpj.ts:75-82 | appending `dv1` and then `dv2` (computed over the input with `dv1` pushed) yields a string whose characters 12 and 13 are its check digits |
| Cnpj.ValidateIffCheckDigits | src/cnpj.ts:49-61 | `validate` succeeds exactly when length and pattern hold and `calculateCheckDigits` of the first twelve characters returns the last two |
| Cnpj.CheckDigitsRoundTrip | src/cnpj.ts:66-83 | any twelve permitted characters followed by their computed digits have length 14 and pass `validate` under any options they satisfy |
| Cnpj.CheckDigitsDetermined | src/cnpj.ts:51-59 | two valid numbers that agree on the first twelve characters are equal |
| Cnpj.GenerateCharacters | src/cnpj.ts:95 | `onlyNumbers` defaults to true; the alphabet drawn from holds only digits and upper-case letters, only digits unless `onlyNumbers` is false, and letters when it is |
| Cnpj.RandomLength | src/cnpj.ts:96-100 | twelve characters are drawn exactly when `randomizeFilial` is true (default false), otherwise eight |
| Cnpj.GeneratedPrefix | src/cnpj.ts:96-100 | drawn characters of the right length give twelve characters that start with them, ending in "0001" unless the branch is randomized |
| Cnpj.DrawableCharacters | src/cnpj.ts:90-91 | every character of the digit alphabet is a digit, and every character of the full alphabet is a digit or an upper-case letter |
| Cnpj.GeneratedPrefixIsPermitted | src/cnpj.ts:95-100 | the drawn characters, with "0001" when the branch is not randomized, always pass the pattern without check digits, and are all digits when only numbers are drawn |
| Cnpj.Generate | src/cnpj.ts:93-105 | the result has length 14, starts with the drawn characters, has "0001" at 8..11 unless the branch is randomized, and passes `validate` with the generator's `onlyNumbers` and with no options |
| Cnpj.Format | src/cnpj.ts:107-109 | 18 characters with `.`, `.`, `/` and `-` at positions 2, 6, 10 and 15; removing them gives the value back |
| Cnpj.ExtractInfo | src/cnpj.ts:111-116 | the value itself, and as formatted value exactly `Format` of it: 18 characters that unformat to the value |
| Cnpj.WorkedExample | src/cnpj.test.ts:19 | "482172160001" gives [3, 0]; "48217216000130" validates; a 13-character string is refused for its length |
| Cnpj.FormatExample | src/cnpj.ts:107-109 | the sample formats to "48.217.216/0001-30" |
| Cnpj.ExtractInfoExample | src/cnpj.ts:111-116 | `extractInfo` of the sample reports "48.217.216/0001-30" as its formatted value |
| Cpf.MatchesPattern | src/cpf.ts:14 | `/^\d{11}$/` holds exactly when the string has 11 characters, its first nine pass the pattern without check digits and the last two are digits |
| Cpf.MatchesPatternWithoutDVs | src/cpf.ts:47 | `/^\d{9}$/`; every character it accepts has a value in 0..9 |
| Cpf.Weight | src/cpf.ts:18 | the weight `arr.length + 1 - currentIndex` of a position inside the array lies between 2 and `L + 1` |
| Cpf.WeightedSum | src/cpf.ts:18 | the `reduce` fold stopped after `k` values; over non-negative values it is non-negative |
| Cpf.CheckSumNonNegative | src/cpf.ts:18-19 | non-negative values give a non-negative sum, so the truncating `%` agrees with the Euclidean one |
| Cpf.CalculateDV | src/cpf.ts:17-21 | the digit lies in 0..9; for a non-negative sum it is 0 exactly when the sum is 0 or 1 modulo 11, and otherwise adding it makes the sum a multiple of 11 |
| Cpf.CheckDigitsCompleteSum | src/cpf.ts:17-21 | in every valid number each check digit is 0 exactly when the weighted sum before it is 0 or 1 modulo 11, and otherwise completes that sum to a multiple of 11 |
| Cpf.FirstSampleSum | src/cpf.test.ts:19 | the weighted sum of 4,3,3,7,8,0,7,3,2 under weights 10..2 is 229 |
| Cpf.SecondSampleSum | src/cpf.test.ts:19 | the weighted sum of the same digits followed by 2, under weights 11..2, is 270 |
| Cpf.SampleIsCpf | src/cpf.test.ts:6 | "43378073225" is eleven digits with both check digits |
| Cpf.Validate | src/cpf.ts:23-45 | length other than 11 gives INVALID_LENGTH; then a non-digit gives INVALID_CHARS; then a wrong character at index 9 or 10 gives INVALID_CHECK_DIGITS; success returns the input unchanged |
| Cpf.CalculateCheckDigits | src/cpf.ts:49-66 | length other than 9 gives INVALID_LENGTH, then a non-digit gives INVALID_CHARS; otherwise two digits in 0..9, and the input with them appended is a valid number |
| Cpf.AppendedDigitsAreCheckDigits | src/cpf.ts:58-65 | appending `dv1` and then `dv2` (computed over the input with `dv1` pushed) yields a string whose characters 9 and 10 are its check digits |
| Cpf.ValidateIffCheckDigits | src/cpf.ts:34-44 | `validate` succeeds exactly when the string is eleven digits and `calculateCheckDigits` of the first nine returns the last two |
| Cpf.CheckDigitsRoundTrip | src/cpf.ts:49-66 | any nine digits followed by their computed digits have length 11 and pass `validate` |
| Cpf.CheckDigitsDetermined | src/cpf.ts:34-42 | two valid numbers that agree on the first nine digits are equal |
| Cpf.TamperedCheckDigit | src/cpf.ts:34-42 | putting a different digit in place of either check digit of a valid number makes `validate` report INVALID_CHECK_DIGITS |
| Cpf.Generate | src/cpf.ts:70-76 | the result has length 11, starts with the nine drawn digits and passes `validate` |
| Cpf.NinesSums | src/cpf.test.ts:22 | the sums for "861772359" are 288 and, with 9 appended, 354 |
| Cpf.ZerosSums | src/cpf.test.ts:23 | the sums for "405161727" are 176 and, with 0 appended, 209: both multiples of 11 |
| Cpf.NinesExample | src/cpf.test.ts:22 | "861772359" gives [9, 9] |
| Cpf.ZerosExample | src/cpf.test.ts:23 | "405161727" gives [0, 0], through the rule that turns 11 into 0 |
| Cpf.SampleExamples | src/cpf.test.ts:19 | "433780732" gives [2, 5]; "43378073225" validates; a 10-character string, a letter and a wrong first check digit are refused with the matching error |

## Left out

- `generateRandomString` (src/common.ts:64-74) uses `Math.random` and
  floating-point `Math.floor`. Each `Generate` takes its random characters
  as a parameter instead, restricted to the right alphabet and length.
- The `throw` in each `generate` is not modelled as an exception. It is
  proved unreachable: `Generate` always returns a valid number.
- Constructor arguments that are not arrays (`{}`, `NaN`, `null`, `true`,
  ...) exist only because of JavaScript's dynamic typing. `Create` models
  the meaningful case, the empty table.
- JavaScript strings are UTF-16. Here a string is a sequence of Dafny
  characters, and `length` is its number of elements.
- Regular expressions are modelled as per-character predicates, one per
  pattern.
- The branded types `CnpjString` and `CpfString` have no runtime content.
  They are subset types of `string` here.
- IterCycle: aliasing of the backing array is not modelled. The source keeps
  the caller's array by reference (src/common.ts:28) and caches its length
  (src/common.ts:29), so a caller that later changed the array would change
  what `next()` returns, or leave the cached length stale. The model keeps
  an immutable copy of the table and its length.
- IterCycle: counts are integers here, while a JavaScript `number` is a
  double. Three behaviours of non-integer input are therefore not modelled.
  `skip(n)` with a fractional, `NaN` or infinite `n` leaves a fractional or
  `NaN` cursor, after which `next()` returns `undefined`. `take` with such
  an `n` throws from `new Array(n)`. `zip` over a sparse array skips the
  holes, because `map` never calls `next()` for them; sequences here have
  no holes.
- `Cnpj.CalculateDVWithCursor`: the source keeps the cursor in a
  module-level constant. The model passes that cursor in as a parameter.
- The `UF` enumeration (src/common.ts:76-105) is a list of constants with
  no logic. There is no region table, no CPF formatting or `extractInfo`,
  and no `uf` option for CPF `generate`, so none of these is modelled.
- Test vectors: one of the five CNPJ vectors and three of the five CPF
  vectors are worked out. The others follow the same arithmetic.
- `scripts/build.mjs`, the bundling configuration, is not part of this
  model.
