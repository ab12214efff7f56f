/** The 11-digit Brazilian personal taxpayer number (CPF): nine digits
    followed by two modulo-11 check digits. */
module Cpf {
  import opened Common

  /** Why a value was refused. */
  datatype CpfError = InvalidLength | InvalidChars | InvalidCheckDigits {
    /** The string each member of the error enumeration stands for. */
    function Code(): string {
      match this
      case InvalidLength => "invalid-length"
      case InvalidChars => "invalid-chars"
      case InvalidCheckDigits => "invalid-check-digits"
    }
  }

  // ---------------------------------------------------------------------
  // Patterns
  // ---------------------------------------------------------------------

  /** `/^\d{11}$/`: a complete number, that is nine digits and two more. */
  predicate MatchesPattern(s: string): (b: bool)
    ensures b <==> |s| == 11 && MatchesPatternWithoutDVs(s[..9]) && IsDigit(s[9]) && IsDigit(s[10])
  {
    |s| == 11 && forall i :: 0 <= i < |s| ==> IsDigit(s[i])
  }

  /** `/^\d{9}$/`: a number without its check digits. */
  predicate MatchesPatternWithoutDVs(s: string): (b: bool)
    ensures b ==> forall i :: 0 <= i < |s| ==> 0 <= ValueFromChar(s[i]) <= 9
  {
    |s| == 9 && forall i :: 0 <= i < |s| ==> IsDigit(s[i])
  }

  // ---------------------------------------------------------------------
  // Check digit
  // ---------------------------------------------------------------------

  /** The weight of position `i` among `n` values: `n + 1 - i`, so the
      weights run from `n + 1` down to 2. */
  function Weight(n: nat, i: nat): (w: int)
    ensures i < n ==> 2 <= w <= n + 1
  {
    n + 1 - i
  }

  /** `value.reduce((acc, current, i, arr) => acc + current * (arr.length + 1 - i), 0)`
      stopped after the first `k` values: a left fold. A weighted sum of
      non-negative values is non-negative. */
  function WeightedSum(value: seq<int>, k: nat): (r: int)
    requires k <= |value|
    ensures (forall i :: 0 <= i < |value| ==> value[i] >= 0) ==> r >= 0
  {
    if k == 0 then 0
    else WeightedSum(value, k - 1) + value[k - 1] * Weight(|value|, k - 1)
  }

  /** The weighted sum over the whole of `value`. */
  function CheckSum(value: seq<int>): int {
    WeightedSum(value, |value|)
  }

  /** Digits never make the weighted sum negative, so the source's truncating
      `%` agrees with the Euclidean one on it. */
  lemma CheckSumNonNegative(value: seq<int>)
    requires forall i :: 0 <= i < |value| ==> value[i] >= 0
    ensures CheckSum(value) >= 0
  {
  }

  /** One check digit: `11 - sum % 11`, or 0 where that would be 10 or 11.
      Where the sum is non-negative, a non-zero digit completes it to a
      multiple of 11. */
  function CalculateDV(value: seq<int>): (dv: int)
    ensures 0 <= dv <= 9
    ensures CheckSum(value) >= 0 ==> (dv == 0 <==> CheckSum(value) % 11 <= 1)
    ensures CheckSum(value) >= 0 && dv != 0 ==> (CheckSum(value) + dv) % 11 == 0
  {
    var sum := CheckSum(value);
    var dv := 11 - JsRem(sum, 11);
    ModUnique(sum + 11 - sum % 11, 11, sum / 11 + 1, 0);
    if dv > 9 then 0 else dv
  }

  // ---------------------------------------------------------------------
  // Validated numbers
  // ---------------------------------------------------------------------

  /** Both trailing characters hold the check digits of what precedes them. */
  predicate HasCheckDigits(s: string)
    requires |s| == 11
  {
    && ValueFromChar(s[9]) == CalculateDV(Values(s)[..9])
    && ValueFromChar(s[10]) == CalculateDV(Values(s)[..10])
  }

  /** What passing `validate` establishes about a string. */
  predicate IsCpf(s: string) {
    MatchesPattern(s) && HasCheckDigits(s)
  }

  /** The number the tests use throughout. */
  const Sample: string := "43378073225"

  /** The weighted sum behind the sample's first check digit. */
  lemma FirstSampleSum()
    ensures CheckSum([4, 3, 3, 7, 8, 0, 7, 3, 2]) == 229
  {
    var v := [4, 3, 3, 7, 8, 0, 7, 3, 2];
    assert WeightedSum(v, 1) == 40;
    assert WeightedSum(v, 2) == 67;
    assert WeightedSum(v, 3) == 91;
    assert WeightedSum(v, 4) == 140;
    assert WeightedSum(v, 5) == 188;
    assert WeightedSum(v, 6) == 188;
    assert WeightedSum(v, 7) == 216;
    assert WeightedSum(v, 8) == 225;
  }

  /** The weighted sum behind the sample's second check digit. */
  lemma SecondSampleSum()
    ensures CheckSum([4, 3, 3, 7, 8, 0, 7, 3, 2, 2]) == 270
  {
    var v := [4, 3, 3, 7, 8, 0, 7, 3, 2, 2];
    assert WeightedSum(v, 1) == 44;
    assert WeightedSum(v, 2) == 74;
    assert WeightedSum(v, 3) == 101;
    assert WeightedSum(v, 4) == 157;
    assert WeightedSum(v, 5) == 213;
    assert WeightedSum(v, 6) == 213;
    assert WeightedSum(v, 7) == 248;
    assert WeightedSum(v, 8) == 260;
    assert WeightedSum(v, 9) == 266;
  }

  /** The sample's check digits, worked out: the weighted sums are 229 and
      270, so the digits are `11 - 9 = 2` and `11 - 6 = 5`. */
  lemma SampleIsCpf()
    ensures IsCpf(Sample)
  {
    var v := Values(Sample);
    assert v[..9] == [4, 3, 3, 7, 8, 0, 7, 3, 2];
    assert v[..10] == [4, 3, 3, 7, 8, 0, 7, 3, 2, 2];
    FirstSampleSum();
    SecondSampleSum();
    assert CalculateDV(v[..9]) == 2 == ValueFromChar(Sample[9]);
    assert CalculateDV(v[..10]) == 5 == ValueFromChar(Sample[10]);
  }

  /** A string that has passed validation (or was generated). */
  type CpfString = s: string | IsCpf(s) witness (SampleIsCpf(); Sample)

  /** Checks length, then characters, then the first and the second check
      digit, and reports the first check that fails. */
  function Validate(value: string): (r: Result<CpfString, CpfError>)
    ensures r.Success? ==> r.data == value
    ensures r == Failure(InvalidLength) <==> |value| != 11
    ensures r == Failure(InvalidChars) <==> |value| == 11 && !MatchesPattern(value)
    ensures r == Failure(InvalidCheckDigits)
        <==> MatchesPattern(value) && !HasCheckDigits(value)
  {
    if |value| != 11 then Failure(InvalidLength)
    else if !MatchesPattern(value) then Failure(InvalidChars)
    else
      var originalNumbers := Values(value);
      var dv := CalculateDV(originalNumbers[..9]);
      if ValueFromChar(value[9]) != dv then Failure(InvalidCheckDigits)
      else
        var dv2 := CalculateDV(originalNumbers[..10]);
        if ValueFromChar(value[10]) != dv2 then Failure(InvalidCheckDigits)
        else Success(value)
  }

  /** Computes the two check digits of a 9-digit number; the second is
      computed over the number with the first appended. */
  function CalculateCheckDigits(value: string): (r: Result<(int, int), CpfError>)
    ensures r == Failure(InvalidLength) <==> |value| != 9
    ensures r == Failure(InvalidChars) <==> |value| == 9 && !MatchesPatternWithoutDVs(value)
    ensures r.Success? <==> MatchesPatternWithoutDVs(value)
    ensures r.Success? ==> 0 <= r.data.0 <= 9 && 0 <= r.data.1 <= 9
    ensures r.Success? ==> IsCpf(value + [DigitChar(r.data.0), DigitChar(r.data.1)])
  {
    if |value| != 9 then Failure(InvalidLength)
    else if !MatchesPatternWithoutDVs(value) then Failure(InvalidChars)
    else
      var originalNumbers := Values(value);
      var dv1 := CalculateDV(originalNumbers);
      var dv2 := CalculateDV(originalNumbers + [dv1]);
      AppendedDigitsAreCheckDigits(value, dv1, dv2);
      Success((dv1, dv2))
  }

  /** Appending the digits computed from a 9-digit number gives a string
      whose trailing characters are its check digits. */
  lemma AppendedDigitsAreCheckDigits(p: string, dv1: int, dv2: int)
    requires MatchesPatternWithoutDVs(p)
    requires dv1 == CalculateDV(Values(p)) && dv2 == CalculateDV(Values(p) + [dv1])
    ensures IsCpf(p + [DigitChar(dv1), DigitChar(dv2)])
  {
    var s := p + [DigitChar(dv1), DigitChar(dv2)];
    assert Values(s)[..9] == Values(p);
    assert Values(s)[..10] == Values(p) + [dv1];
  }

  /** `validate` succeeds exactly when the string is eleven digits and the
      last two are the digits `calculateCheckDigits` gives for the first nine. */
  lemma ValidateIffCheckDigits(s: string)
    ensures Validate(s).Success?
        <==> && MatchesPattern(s)
             && CalculateCheckDigits(s[..9]) == Success((ValueFromChar(s[9]), ValueFromChar(s[10])))
  {
    if MatchesPattern(s) {
      var p := s[..9];
      assert MatchesPatternWithoutDVs(p);
      assert Values(s)[..9] == Values(p);
      var dv1 := CalculateDV(Values(p));
      if ValueFromChar(s[9]) == dv1 {
        assert Values(s)[..10] == Values(p) + [dv1];
      }
    }
  }

  /** Round trip: nine digits followed by their check digits have length 11
      and pass `validate`. */
  lemma CheckDigitsRoundTrip(p: string)
    requires MatchesPatternWithoutDVs(p)
    ensures CalculateCheckDigits(p).Success?
    ensures var (dv1, dv2) := CalculateCheckDigits(p).data;
      var s := p + [DigitChar(dv1), DigitChar(dv2)];
      |s| == 11 && Validate(s) == Success(s)
  {
    var (dv1, dv2) := CalculateCheckDigits(p).data;
    var s := p + [DigitChar(dv1), DigitChar(dv2)];
    assert s[..9] == p;
    ValidateIffCheckDigits(s);
  }

  /** The check digits are a function of the first nine: two valid numbers
      that agree there agree everywhere. */
  lemma CheckDigitsDetermined(s: CpfString, t: CpfString)
    requires s[..9] == t[..9]
    ensures s == t
  {
    assert Values(s)[..9] == Values(t)[..9];
    assert s[9] == t[9];
    assert Values(s)[..10] == Values(t)[..10];
    assert s == s[..9] + [s[9], s[10]];
    assert t == t[..9] + [t[9], t[10]];
  }

  /** Putting a different digit in place of either check digit of a valid
      number makes `validate` report the check digits. */
  lemma TamperedCheckDigit(s: CpfString, k: nat, c: char)
    requires k == 9 || k == 10
    requires IsDigit(c) && c != s[k]
    ensures Validate(s[k := c]) == Failure(InvalidCheckDigits)
  {
    var t := s[k := c];
    assert Values(t)[..9] == Values(s)[..9];
    if k == 10 {
      assert Values(t)[..10] == Values(s)[..10];
    }
  }

  /** What the check digits of a valid number mean: each one completes the
      weighted sum of what precedes it to a multiple of 11, or is 0 where
      that would take 10 or 11. */
  lemma CheckDigitsCompleteSum(s: CpfString)
    ensures var sum1, d1 := CheckSum(Values(s)[..9]), ValueFromChar(s[9]);
      && sum1 >= 0 && 0 <= d1 <= 9
      && (d1 == 0 <==> sum1 % 11 <= 1)
      && (d1 != 0 ==> (sum1 + d1) % 11 == 0)
    ensures var sum2, d2 := CheckSum(Values(s)[..10]), ValueFromChar(s[10]);
      && sum2 >= 0 && 0 <= d2 <= 9
      && (d2 == 0 <==> sum2 % 11 <= 1)
      && (d2 != 0 ==> (sum2 + d2) % 11 == 0)
  {
    var v := Values(s);
    assert forall i :: 0 <= i < 10 ==> v[i] >= 0;
    CheckSumNonNegative(v[..9]);
    CheckSumNonNegative(v[..10]);
  }

  // ---------------------------------------------------------------------
  // Generation
  // ---------------------------------------------------------------------

  /** `generate` with its nine random digits passed in as `random`; the check
      digits are appended as decimal digits. The `throw` on a failed
      check-digit computation cannot happen: nine digits always pass
      `calculateCheckDigits`. */
  function Generate(random: string): (r: CpfString)
    requires |random| == 9
    requires forall i :: 0 <= i < |random| ==> random[i] in NumbersChars
    ensures |r| == 11 && r[..9] == random
    ensures Validate(r) == Success(r)
  {
    assert MatchesPatternWithoutDVs(random);
    CheckDigitsRoundTrip(random);
    var result := CalculateCheckDigits(random);
    random + [DigitChar(result.data.0), DigitChar(result.data.1)]
  }

  // ---------------------------------------------------------------------
  // Worked examples
  // ---------------------------------------------------------------------

  /** The sums behind "861772359": 288 and 354, so both digits are 9. The
      digits are a parameter pinned by `requires` rather than a literal in the
      contract, which would have the verifier unfold `CheckSum` eagerly where
      the lemma is used and run out of resources. */
  lemma NinesSums(v: seq<int>)
    requires v == [8, 6, 1, 7, 7, 2, 3, 5, 9]
    ensures CheckSum(v) == 288 && CheckSum(v + [9]) == 354
  {
    var w := v + [9];
    assert WeightedSum(v, 1) == 80;
    assert WeightedSum(v, 2) == 134;
    assert WeightedSum(v, 3) == 142;
    assert WeightedSum(v, 4) == 191;
    assert WeightedSum(v, 5) == 233;
    assert WeightedSum(v, 6) == 243;
    assert WeightedSum(v, 7) == 255;
    assert WeightedSum(v, 8) == 270;
    assert WeightedSum(w, 1) == 88;
    assert WeightedSum(w, 2) == 148;
    assert WeightedSum(w, 3) == 157;
    assert WeightedSum(w, 4) == 213;
    assert WeightedSum(w, 5) == 262;
    assert WeightedSum(w, 6) == 274;
    assert WeightedSum(w, 7) == 289;
    assert WeightedSum(w, 8) == 309;
    assert WeightedSum(w, 9) == 336;
  }

  /** The sums behind "405161727": 176 and 209, both multiples of 11, so
      `11 - 0` is replaced by 0 twice. Pinned like `NinesSums`. */
  lemma ZerosSums(v: seq<int>)
    requires v == [4, 0, 5, 1, 6, 1, 7, 2, 7]
    ensures CheckSum(v) == 176 && CheckSum(v + [0]) == 209
  {
    var w := v + [0];
    assert WeightedSum(v, 1) == 40;
    assert WeightedSum(v, 2) == 40;
    assert WeightedSum(v, 3) == 80;
    assert WeightedSum(v, 4) == 87;
    assert WeightedSum(v, 5) == 123;
    assert WeightedSum(v, 6) == 128;
    assert WeightedSum(v, 7) == 156;
    assert WeightedSum(v, 8) == 162;
    assert WeightedSum(w, 1) == 44;
    assert WeightedSum(w, 2) == 44;
    assert WeightedSum(w, 3) == 89;
    assert WeightedSum(w, 4) == 97;
    assert WeightedSum(w, 5) == 139;
    assert WeightedSum(w, 6) == 145;
    assert WeightedSum(w, 7) == 180;
    assert WeightedSum(w, 8) == 188;
    assert WeightedSum(w, 9) == 209;
  }

  /** "861772359" gives the digits 9 and 9. */
  lemma NinesExample()
    ensures CalculateCheckDigits("861772359") == Success((9, 9))
  {
    var v := Values("861772359");
    assert v == [8, 6, 1, 7, 7, 2, 3, 5, 9];
    NinesSums(v);
  }

  /** "405161727" gives the digits 0 and 0, by the replace-with-0 rule. */
  lemma ZerosExample()
    ensures CalculateCheckDigits("405161727") == Success((0, 0))
  {
    var v := Values("405161727");
    assert v == [4, 0, 5, 1, 6, 1, 7, 2, 7];
    ZerosSums(v);
  }

  /** The sample number's digits, and one refusal of each kind. */
  lemma SampleExamples()
    ensures CalculateCheckDigits("433780732") == Success((2, 5))
    ensures Validate(Sample) == Success(Sample)
    ensures Validate("4337807322") == Failure(InvalidLength)
    ensures Validate("4337807322X") == Failure(InvalidChars)
    ensures Validate("43378073215") == Failure(InvalidCheckDigits)
  {
    SampleIsCpf();
    ValidateIffCheckDigits(Sample);
    assert Sample[..9] == "433780732";
    TamperedCheckDigit(Sample, 9, '1');
    assert Sample[9 := '1'] == "43378073215";
    assert !IsDigit("4337807322X"[10]);
  }
}
