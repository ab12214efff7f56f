/** The 14-character Brazilian company taxpayer number (CNPJ): twelve
    digits or upper-case letters followed by two modulo-11 check digits. */
module Cnpj {
  import opened Common

  /** Why a value was refused. */
  datatype CnpjError = InvalidLength | InvalidChars | InvalidCheckDigits {
    /** The string each member of the error enumeration stands for. */
    function Code(): string {
      match this
      case InvalidLength => "invalid-length"
      case InvalidChars => "invalid-chars"
      case InvalidCheckDigits => "invalid-check-digits"
    }
  }

  /** Options of `validate`; `undefined` means "not set". */
  datatype ValidateOptions = ValidateOptions(onlyNumbers: Option<bool>)

  /** Options of `generate`; `undefined` means "not set". */
  datatype GenerateOptions = GenerateOptions(onlyNumbers: Option<bool>, randomizeFilial: Option<bool>)

  // ---------------------------------------------------------------------
  // Characters and patterns
  // ---------------------------------------------------------------------

  /** The regular-expression class `[\dA-Z]`. */
  predicate IsDigitOrUpper(c: char) {
    IsDigit(c) || 'A' <= c <= 'Z'
  }

  /** `/^\d{14}$/`: the numbering in use before letters were admitted. */
  predicate MatchesOldPattern(s: string): (b: bool)
    ensures b ==> MatchesNewPattern(s)
  {
    |s| == 14 && forall i :: 0 <= i < |s| ==> IsDigit(s[i])
  }

  /** `/^[\dA-Z]{12}\d{2}$/`: letters admitted outside the two check digits. */
  predicate MatchesNewPattern(s: string): (b: bool)
    ensures b <==> |s| == 14 && MatchesPatternWithoutDVs(s[..12]) && IsDigit(s[12]) && IsDigit(s[13])
  {
    && |s| == 14
    && (forall i :: 0 <= i < 12 ==> IsDigitOrUpper(s[i]))
    && IsDigit(s[12]) && IsDigit(s[13])
  }

  /** `/^[\dA-Z]{12}$/`: a number without its check digits. */
  predicate MatchesPatternWithoutDVs(s: string): (b: bool)
    ensures b ==> forall i :: 0 <= i < |s| ==> 0 <= ValueFromChar(s[i]) <= 42
  {
    |s| == 12 && forall i :: 0 <= i < |s| ==> IsDigitOrUpper(s[i])
  }

  /** The pattern `validate` applies: the old one only when `onlyNumbers` is `true`. */
  predicate MatchesValidationPattern(s: string, options: ValidateOptions): (b: bool)
    ensures b ==> MatchesNewPattern(s)
    ensures options.onlyNumbers == Some(true) && b ==> forall i :: 0 <= i < |s| ==> IsDigit(s[i])
  {
    if options.onlyNumbers == Some(true) then MatchesOldPattern(s) else MatchesNewPattern(s)
  }

  // ---------------------------------------------------------------------
  // Check digit
  // ---------------------------------------------------------------------

  /** The weight table the shared cursor cycles over. */
  const Factors: seq<int> := [9, 8, 7, 6, 5, 4, 3, 2]

  /** Entry `k` of the table is `9 - k`. */
  lemma FactorsDescend(k: int)
    requires 0 <= k < |Factors|
    ensures Factors[k] == 9 - k
  {
  }

  /** The weights the shared cursor pairs with `n` values: reset, skip
      `8 - n % 8` places, then `n` successive `next()` calls. Every weight
      is an entry of the table, so lies between 2 and 9. */
  function Weights(n: nat): (w: seq<int>)
    ensures |w| == n
    ensures forall i :: 0 <= i < n ==> 2 <= w[i] <= 9
  {
    var start := Advanced(|Factors|, |Factors| - 1, |Factors| - n % |Factors|);
    assert forall k :: 0 <= k < |Factors| ==> 2 <= Factors[k] <= 9;
    Cycle(Factors, start, n)
  }

  /** Counted from the right, the weights run 2, 3, ..., 9 and start over,
      so the last value always gets weight 2. */
  lemma WeightsFromRight(n: nat, j: nat)
    requires j < n
    ensures Weights(n)[n - 1 - j] == 2 + j % 8
  {
    WeightPosition(n, j);
    FactorsDescend(7 - j % 8);
  }

  /** Where the `(n - 1 - j)`-th weight is read from: `j` places left of the table's end. */
  lemma WeightPosition(n: nat, j: nat)
    requires j < n
    ensures (Advanced(|Factors|, |Factors| - 1, |Factors| - n % |Factors|) + 1 + (n - 1 - j)) % |Factors|
         == 7 - j % 8
  {
    assert |Factors| == 8;
    ModAddLeft(15 - n % 8, n - j, 8);
    assert 15 - n % 8 + (n - j) == (15 - j) + 8 * (n / 8);
    ShiftMod(15 - j, 8, n / 8);
    ModUnique(15 - j, 8, 1 - j / 8, 7 - j % 8);
  }

  /** The weights in closed form: the character `j` places from the right
      is weighted `2 + j % 8`. */
  lemma WeightsClosedForm(n: nat)
    ensures Weights(n) == seq(n, i requires 0 <= i < n => 2 + (n - 1 - i) % 8)
  {
    forall i | 0 <= i < n
      ensures Weights(n)[i] == 2 + (n - 1 - i) % 8
    {
      WeightsFromRight(n, n - 1 - i);
    }
  }

  /** The weights for the twelve leading characters. The length is a
      parameter pinned by `requires` rather than the literal 12: with the
      literal in the contract the verifier unfolds `Weights(12)` eagerly and
      runs out of resources. */
  lemma WeightsOfTwelve(n: nat)
    requires n == 12
    ensures Weights(n) == [5, 4, 3, 2, 9, 8, 7, 6, 5, 4, 3, 2]
  {
    WeightsFromRight(n, 11);
    WeightsFromRight(n, 10);
    WeightsFromRight(n, 9);
    WeightsFromRight(n, 8);
    WeightsFromRight(n, 7);
    WeightsFromRight(n, 6);
    WeightsFromRight(n, 5);
    WeightsFromRight(n, 4);
    WeightsFromRight(n, 3);
    WeightsFromRight(n, 2);
    WeightsFromRight(n, 1);
    WeightsFromRight(n, 0);
  }

  /** One more character puts one more weight on the left, `2 + n % 8`,
      and leaves the others as they were. */
  lemma WeightsGrow(n: nat)
    ensures Weights(n + 1) == [2 + n % 8] + Weights(n)
  {
    forall i | 0 <= i < n
      ensures Weights(n + 1)[i + 1] == Weights(n)[i]
    {
      WeightsFromRight(n + 1, n - 1 - i);
      WeightsFromRight(n, n - 1 - i);
    }
    WeightsFromRight(n + 1, n);
  }

  /** The weights for the thirteen characters the second check digit covers. */
  lemma WeightsOfThirteen()
    ensures Weights(13) == [6, 5, 4, 3, 2, 9, 8, 7, 6, 5, 4, 3, 2]
  {
    WeightsGrow(12);
    WeightsOfTwelve(12);
  }

  /** `reduce((acc, [factor, value]) => factor * value + acc, 0)`: a left
      fold over the pairs. A sum of products of non-negative factors is
      non-negative. */
  function WeightedSum(pairs: seq<(int, int)>): (r: int)
    ensures (forall i :: 0 <= i < |pairs| ==> pairs[i].0 >= 0 && pairs[i].1 >= 0) ==> r >= 0
  {
    if |pairs| == 0 then 0
    else
      var last := pairs[|pairs| - 1];
      last.0 * last.1 + WeightedSum(pairs[..|pairs| - 1])
  }

  /** The weighted sum of `value` under the cursor's weights. */
  function CheckSum(value: seq<int>): int
  {
    WeightedSum(Zipped(Weights(|value|), value))
  }

  /** Values of permitted characters never make the weighted sum negative, so
      the source's truncating `%` agrees with the Euclidean one on it. */
  lemma CheckSumNonNegative(value: seq<int>)
    requires forall i :: 0 <= i < |value| ==> value[i] >= 0
    ensures CheckSum(value) >= 0
  {
    var pairs := Zipped(Weights(|value|), value);
    assert forall i :: 0 <= i < |pairs| ==> pairs[i].0 >= 0 && pairs[i].1 >= 0;
  }

  /** One check digit: `11 - sum % 11`, or 0 where that would be 10 or 11. */
  function CalculateDV(value: seq<int>): (dv: int)
    ensures 0 <= dv <= 9
    ensures CheckSum(value) >= 0 ==> (dv == 0 <==> CheckSum(value) % 11 <= 1)
    ensures CheckSum(value) >= 0 && dv != 0 ==> (CheckSum(value) + dv) % 11 == 0
  {
    var sum := CheckSum(value);
    var dv := 11 - JsRem(sum, 11);
    ModUnique(sum + 11 - sum % 11, 11, sum / 11 + 1, 0);
    if dv > 9 then 0 else dv
  }

  /** `calculateDV` as the source runs it, on the module's one shared cursor
      over `Factors`. The reset makes the result independent of where earlier
      calls left the cursor, and the cursor ends up standing before entry 0. */
  method CalculateDVWithCursor(factorIter: IterCycle<int>, value: seq<int>) returns (dv: int)
    requires factorIter.Valid() && factorIter.iterable == Factors
    modifies factorIter
    ensures factorIter.Valid()
    ensures dv == CalculateDV(value)
    ensures factorIter.currentIndex == |Factors| - 1
  {
    factorIter.Reset();
    var it := factorIter.Skip(|Factors| - |value| % |Factors|);
    var pairs := it.Zip(value);
    var sum := WeightedSum(pairs);
    dv := 11 - JsRem(sum, 11);
    dv := if dv > 9 then 0 else dv;
    WeightsEndOnLastFactor(|value|);
  }

  /** After the skip and `n` calls to `next()` the cursor is back on the
      table's last entry, where a reset would put it. */
  lemma WeightsEndOnLastFactor(n: nat)
    ensures (Advanced(|Factors|, |Factors| - 1, |Factors| - n % |Factors|) + n) % |Factors| == |Factors| - 1
  {
    assert |Factors| == 8;
    ModAddLeft(15 - n % 8, n, 8);
    assert 15 - n % 8 + n == 15 + 8 * (n / 8);
    ShiftMod(15, 8, n / 8);
  }

  // ---------------------------------------------------------------------
  // Validated numbers
  // ---------------------------------------------------------------------

  /** Both trailing characters hold the check digits of what precedes them. */
  predicate HasCheckDigits(s: string)
    requires |s| == 14
  {
    && ValueFromChar(s[12]) == CalculateDV(Values(s)[..12])
    && ValueFromChar(s[13]) == CalculateDV(Values(s)[..13])
  }

  /** What passing `validate` establishes about a string. */
  predicate IsCnpj(s: string) {
    MatchesNewPattern(s) && HasCheckDigits(s)
  }

  /** The number the tests use throughout. */
  const Sample: string := "48217216000130"

  /** Its check digits, worked out: the weighted sums are 184 and 166, so the
      digits are `11 - 8 = 3` and `0` (for `11 - 1 = 10`). */
  lemma SampleIsCnpj()
    ensures IsCnpj(Sample)
  {
    var v := Values(Sample);
    assert v[..12] == [4, 8, 2, 1, 7, 2, 1, 6, 0, 0, 0, 1];
    assert v[..13] == [4, 8, 2, 1, 7, 2, 1, 6, 0, 0, 0, 1, 3];
    WeightsOfTwelve(12);
    WeightsOfThirteen();
    FirstSampleSum();
    assert Zipped(Weights(12), v[..12]) == [(5, 4), (4, 8), (3, 2), (2, 1), (9, 7), (8, 2), (7, 1), (6, 6), (5, 0), (4, 0), (3, 0), (2, 1)];
    SecondSampleSum();
    assert Zipped(Weights(13), v[..13]) == [(6, 4), (5, 8), (4, 2), (3, 1), (2, 7), (9, 2), (8, 1), (7, 6), (6, 0), (5, 0), (4, 0), (3, 1), (2, 3)];
  }

  /** The weighted sum behind the sample's first check digit. */
  lemma FirstSampleSum()
    ensures WeightedSum([(5, 4), (4, 8), (3, 2), (2, 1), (9, 7), (8, 2), (7, 1), (6, 6), (5, 0), (4, 0), (3, 0), (2, 1)]) == 184
  {
    var first := [(5, 4), (4, 8), (3, 2), (2, 1), (9, 7), (8, 2), (7, 1), (6, 6), (5, 0), (4, 0), (3, 0), (2, 1)];
    assert WeightedSum(first[..1]) == 20;
    assert first[..2][..1] == first[..1];
    assert WeightedSum(first[..2]) == 52;
    assert first[..3][..2] == first[..2];
    assert WeightedSum(first[..3]) == 58;
    assert first[..4][..3] == first[..3];
    assert WeightedSum(first[..4]) == 60;
    assert first[..5][..4] == first[..4];
    assert WeightedSum(first[..5]) == 123;
    assert first[..6][..5] == first[..5];
    assert WeightedSum(first[..6]) == 139;
    assert first[..7][..6] == first[..6];
    assert WeightedSum(first[..7]) == 146;
    assert first[..8][..7] == first[..7];
    assert WeightedSum(first[..8]) == 182;
    assert first[..9][..8] == first[..8];
    assert WeightedSum(first[..9]) == 182;
    assert first[..10][..9] == first[..9];
    assert WeightedSum(first[..10]) == 182;
    assert first[..11][..10] == first[..10];
    assert WeightedSum(first[..11]) == 182;
    assert first[..12][..11] == first[..11];
    assert WeightedSum(first[..12]) == 184;
    assert first[..12] == first;
  }

  /** The weighted sum behind the sample's second check digit. */
  lemma SecondSampleSum()
    ensures WeightedSum([(6, 4), (5, 8), (4, 2), (3, 1), (2, 7), (9, 2), (8, 1), (7, 6), (6, 0), (5, 0), (4, 0), (3, 1), (2, 3)]) == 166
  {
    var second := [(6, 4), (5, 8), (4, 2), (3, 1), (2, 7), (9, 2), (8, 1), (7, 6), (6, 0), (5, 0), (4, 0), (3, 1), (2, 3)];
    assert WeightedSum(second[..1]) == 24;
    assert second[..2][..1] == second[..1];
    assert WeightedSum(second[..2]) == 64;
    assert second[..3][..2] == second[..2];
    assert WeightedSum(second[..3]) == 72;
    assert second[..4][..3] == second[..3];
    assert WeightedSum(second[..4]) == 75;
    assert second[..5][..4] == second[..4];
    assert WeightedSum(second[..5]) == 89;
    assert second[..6][..5] == second[..5];
    assert WeightedSum(second[..6]) == 107;
    assert second[..7][..6] == second[..6];
    assert WeightedSum(second[..7]) == 115;
    assert second[..8][..7] == second[..7];
    assert WeightedSum(second[..8]) == 157;
    assert second[..9][..8] == second[..8];
    assert WeightedSum(second[..9]) == 157;
    assert second[..10][..9] == second[..9];
    assert WeightedSum(second[..10]) == 157;
    assert second[..11][..10] == second[..10];
    assert WeightedSum(second[..11]) == 157;
    assert second[..12][..11] == second[..11];
    assert WeightedSum(second[..12]) == 160;
    assert second[..13][..12] == second[..12];
    assert WeightedSum(second[..13]) == 166;
    assert second[..13] == second;
  }

  /** A string that has passed validation (or was generated). */
  type CnpjString = s: string | IsCnpj(s) witness (SampleIsCnpj(); Sample)

  /** Checks length, then characters, then the first and the second check
      digit, and reports the first check that fails. */
  function Validate(value: string, options: ValidateOptions): (r: Result<CnpjString, CnpjError>)
    ensures r.Success? ==> r.data == value
    ensures r == Failure(InvalidLength) <==> |value| != 14
    ensures r == Failure(InvalidChars) <==> |value| == 14 && !MatchesValidationPattern(value, options)
    ensures r == Failure(InvalidCheckDigits)
        <==> |value| == 14 && MatchesValidationPattern(value, options) && !HasCheckDigits(value)
  {
    if |value| != 14 then Failure(InvalidLength)
    else if !MatchesValidationPattern(value, options) then Failure(InvalidChars)
    else
      var originalNumbers := Values(value);
      var dv := CalculateDV(originalNumbers[..12]);
      if ValueFromChar(value[12]) != dv then Failure(InvalidCheckDigits)
      else
        var dv2 := CalculateDV(originalNumbers[..13]);
        if ValueFromChar(value[13]) != dv2 then Failure(InvalidCheckDigits)
        else Success(value)
  }

  /** Computes the two check digits of a 12-character number; the second is
      computed over the number with the first appended. */
  function CalculateCheckDigits(value: string): (r: Result<(int, int), CnpjError>)
    ensures r == Failure(InvalidLength) <==> |value| != 12
    ensures r == Failure(InvalidChars) <==> |value| == 12 && !MatchesPatternWithoutDVs(value)
    ensures r.Success? <==> MatchesPatternWithoutDVs(value)
    ensures r.Success? ==> 0 <= r.data.0 <= 9 && 0 <= r.data.1 <= 9
    ensures r.Success? ==> IsCnpj(value + [DigitChar(r.data.0), DigitChar(r.data.1)])
  {
    if |value| != 12 then Failure(InvalidLength)
    else if !MatchesPatternWithoutDVs(value) then Failure(InvalidChars)
    else
      var originalNumbers := Values(value);
      var dv1 := CalculateDV(originalNumbers);
      var dv2 := CalculateDV(originalNumbers + [dv1]);
      AppendedDigitsAreCheckDigits(value, dv1, dv2);
      Success((dv1, dv2))
  }

  /** Appending the digits computed from a 12-character number gives a string
      whose trailing characters are its check digits. */
  lemma AppendedDigitsAreCheckDigits(p: string, dv1: int, dv2: int)
    requires MatchesPatternWithoutDVs(p)
    requires dv1 == CalculateDV(Values(p)) && dv2 == CalculateDV(Values(p) + [dv1])
    ensures IsCnpj(p + [DigitChar(dv1), DigitChar(dv2)])
  {
    var s := p + [DigitChar(dv1), DigitChar(dv2)];
    assert Values(s)[..12] == Values(p);
    assert Values(s)[..13] == Values(p) + [dv1];
  }

  /** `validate` succeeds exactly when the pattern holds and the last two
      characters are the digits `calculateCheckDigits` gives for the first twelve. */
  lemma ValidateIffCheckDigits(s: string, options: ValidateOptions)
    ensures Validate(s, options).Success?
        <==> && |s| == 14 && MatchesValidationPattern(s, options)
             && CalculateCheckDigits(s[..12]) == Success((ValueFromChar(s[12]), ValueFromChar(s[13])))
  {
    if |s| == 14 && MatchesValidationPattern(s, options) {
      var p := s[..12];
      assert MatchesPatternWithoutDVs(p);
      assert Values(s)[..12] == Values(p);
      var dv1 := CalculateDV(Values(p));
      if ValueFromChar(s[12]) == dv1 {
        assert Values(s)[..13] == Values(p) + [dv1];
      }
    }
  }

  /** Round trip: a valid 12-character number followed by its check digits
      has length 14 and passes `validate`, whatever the options allow. */
  lemma CheckDigitsRoundTrip(p: string, options: ValidateOptions)
    requires MatchesPatternWithoutDVs(p)
    requires options.onlyNumbers == Some(true) ==> forall i :: 0 <= i < 12 ==> IsDigit(p[i])
    ensures CalculateCheckDigits(p).Success?
    ensures var (dv1, dv2) := CalculateCheckDigits(p).data;
      var s := p + [DigitChar(dv1), DigitChar(dv2)];
      |s| == 14 && Validate(s, options) == Success(s)
  {
    var (dv1, dv2) := CalculateCheckDigits(p).data;
    var s := p + [DigitChar(dv1), DigitChar(dv2)];
    assert s[..12] == p;
    ValidateIffCheckDigits(s, options);
  }

  /** The check digits are a function of the first twelve characters: two
      valid numbers that agree there agree everywhere. */
  lemma CheckDigitsDetermined(s: CnpjString, t: CnpjString)
    requires s[..12] == t[..12]
    ensures s == t
  {
    assert Values(s)[..12] == Values(t)[..12];
    assert s[12] == t[12];
    assert Values(s)[..13] == Values(t)[..13];
    assert s == s[..12] + [s[12], s[13]];
    assert t == t[..12] + [t[12], t[13]];
  }

  /** What the check digits of a valid number mean: each one completes the
      weighted sum of what precedes it to a multiple of 11, or is 0 where
      that would take 10 or 11. */
  lemma CheckDigitsCompleteSum(s: CnpjString)
    ensures var sum1, d1 := CheckSum(Values(s)[..12]), ValueFromChar(s[12]);
      && sum1 >= 0 && 0 <= d1 <= 9
      && (d1 == 0 <==> sum1 % 11 <= 1)
      && (d1 != 0 ==> (sum1 + d1) % 11 == 0)
    ensures var sum2, d2 := CheckSum(Values(s)[..13]), ValueFromChar(s[13]);
      && sum2 >= 0 && 0 <= d2 <= 9
      && (d2 == 0 <==> sum2 % 11 <= 1)
      && (d2 != 0 ==> (sum2 + d2) % 11 == 0)
  {
    var v := Values(s);
    assert forall i :: 0 <= i < 13 ==> v[i] >= 0;
    CheckSumNonNegative(v[..12]);
    CheckSumNonNegative(v[..13]);
  }

  // ---------------------------------------------------------------------
  // Generation
  // ---------------------------------------------------------------------

  /** The characters `generate` draws from when letters are allowed. */
  const CnpjChars: string := NumbersChars + "ABCDEFGHIJKLMNOPQRSTUVWXYZ"

  /** `onlyNumbers` defaults to `true` when generating. */
  function GenerateCharacters(options: GenerateOptions): (r: string)
    ensures forall c :: c in r ==> IsDigitOrUpper(c)
    ensures options.onlyNumbers.GetOr(true) ==> forall c :: c in r ==> IsDigit(c)
    ensures !options.onlyNumbers.GetOr(true) ==> 'A' in r && 'Z' in r
  {
    if options.onlyNumbers.GetOr(true) then NumbersChars else CnpjChars
  }

  /** How many characters are drawn at random: all twelve when the branch
      ("filial") part is randomized, otherwise the first eight. */
  function RandomLength(options: GenerateOptions): (r: nat)
    ensures r <= 12
    ensures r == 12 <==> options.randomizeFilial.GetOr(false)
  {
    if options.randomizeFilial.GetOr(false) then 12 else 8
  }

  /** Every drawable character passes the pattern for its position. */
  lemma DrawableCharacters(c: char)
    ensures c in NumbersChars ==> IsDigit(c)
    ensures c in CnpjChars ==> IsDigitOrUpper(c)
  {
  }

  /** The twelve characters `generate` hands to `calculateCheckDigits`. */
  function GeneratedPrefix(random: string, options: GenerateOptions): (r: string)
    ensures |random| == RandomLength(options) ==> |r| == 12 && r[..|random|] == random
    ensures |random| == RandomLength(options) && !options.randomizeFilial.GetOr(false) ==> r[8..] == "0001"
  {
    if options.randomizeFilial.GetOr(false) then random else random + "0001"
  }

  /** The characters drawn, with the fixed branch, always pass the pattern
      without check digits, and are all digits when only numbers are drawn. */
  lemma GeneratedPrefixIsPermitted(random: string, options: GenerateOptions)
    requires |random| == RandomLength(options)
    requires forall i :: 0 <= i < |random| ==> random[i] in GenerateCharacters(options)
    ensures MatchesPatternWithoutDVs(GeneratedPrefix(random, options))
    ensures options.onlyNumbers.GetOr(true) ==>
      forall i :: 0 <= i < 12 ==> IsDigit(GeneratedPrefix(random, options)[i])
  {
    forall i | 0 <= i < |random| ensures IsDigitOrUpper(random[i]) {
      DrawableCharacters(random[i]);
    }
    if options.onlyNumbers.GetOr(true) {
      forall i | 0 <= i < |random| ensures IsDigit(random[i]) {
        DrawableCharacters(random[i]);
      }
    }
  }

  /** `generate` with its random draw passed in as `random`. The branch is
      "0001" unless randomized; the check digits are appended as decimal
      digits. The `throw` on a failed check-digit computation cannot happen:
      the twelve characters always pass `calculateCheckDigits`. */
  function Generate(random: string, options: GenerateOptions): (r: CnpjString)
    requires |random| == RandomLength(options)
    requires forall i :: 0 <= i < |random| ==> random[i] in GenerateCharacters(options)
    ensures |r| == 14 && r[..|random|] == random
    ensures !options.randomizeFilial.GetOr(false) ==> r[8..12] == "0001"
    ensures Validate(r, ValidateOptions(options.onlyNumbers)) == Success(r)
    ensures Validate(r, ValidateOptions(None)) == Success(r)
  {
    var numbers := GeneratedPrefix(random, options);
    GeneratedPrefixIsPermitted(random, options);
    CheckDigitsRoundTrip(numbers, ValidateOptions(options.onlyNumbers));
    var result := CalculateCheckDigits(numbers);
    numbers + [DigitChar(result.data.0), DigitChar(result.data.1)]
  }

  // ---------------------------------------------------------------------
  // Display
  // ---------------------------------------------------------------------

  /** Removes the four separators that `Format` inserts. */
  function Unformat(f: string): string
    requires |f| == 18
  {
    f[0..2] + f[3..6] + f[7..10] + f[11..15] + f[16..18]
  }

  /** `DD.DDD.DDD/DDDD-DD`: the separators sit at fixed places and removing them gives the number back. */
  function Format(value: string): (f: string)
    requires |value| == 14
    ensures |f| == 18
    ensures f[2] == '.' && f[6] == '.' && f[10] == '/' && f[15] == '-'
    ensures Unformat(f) == value
  {
    var f := value[0..2] + "." + value[2..5] + "." + value[5..8] + "/" + value[8..12] + "-" + value[12..14];
    assert f[0..2] == value[0..2] && f[3..6] == value[2..5] && f[7..10] == value[5..8];
    assert f[11..15] == value[8..12] && f[16..18] == value[12..14];
    assert value == value[0..2] + value[2..5] + value[5..8] + value[8..12] + value[12..14];
    f
  }

  /** What `extractInfo` reports about a validated number. */
  datatype CnpjInfo = CnpjInfo(value: CnpjString, formattedValue: string)

  /** The number itself and its display form. */
  function ExtractInfo(value: CnpjString): (info: CnpjInfo)
    ensures info.value == value
    ensures info.formattedValue == Format(value)
    ensures |info.formattedValue| == 18 && Unformat(info.formattedValue) == value
  {
    CnpjInfo(value, Format(value))
  }

  // ---------------------------------------------------------------------
  // Worked examples
  // ---------------------------------------------------------------------

  /** The number used throughout the tests: its check digits and its validation. */
  lemma WorkedExample()
    ensures CalculateCheckDigits("482172160001") == Success((3, 0))
    ensures Validate(Sample, ValidateOptions(None)) == Success(Sample)
    ensures Validate("1234567890123", ValidateOptions(None)) == Failure(InvalidLength)
  {
    SampleIsCnpj();
    ValidateIffCheckDigits(Sample, ValidateOptions(None));
    assert Sample[..12] == "482172160001";
    assert ValueFromChar(Sample[12]) == 3 && ValueFromChar(Sample[13]) == 0;
  }

  /** The sample's display form. */
  lemma FormatExample()
    ensures Format(Sample) == "48.217.216/0001-30"
  {
  }

  /** What `extractInfo` reports for the sample. */
  lemma ExtractInfoExample()
    ensures IsCnpj(Sample) && ExtractInfo(Sample).formattedValue == "48.217.216/0001-30"
  {
    SampleIsCnpj();
    FormatExample();
  }
}
