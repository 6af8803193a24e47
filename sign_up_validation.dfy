/** The sign-up form's field rules: one rule per field, each turning the raw
    text of that field into a verdict and a (Portuguese) message, together
    with the ordered field lists of the two kinds of registrant. */
module SignUpValidation {
  import opened Digits
  import opened Calendar

  datatype ValidationResult = ValidationResult(isValid: bool, message: string)

  const Valid := ValidationResult(true, "")

  function Invalid(message: string): ValidationResult {
    ValidationResult(false, message)
  }

  // ---------------------------------------------------------------- email

  /** `[^\s@]`: neither white space nor an at sign. */
  predicate IsEmailChar(c: char) {
    !IsWhitespace(c) && c != '@'
  }

  predicate AllEmailChars(s: string) {
    forall i | 0 <= i < |s| :: IsEmailChar(s[i])
  }

  /** `/^[^\s@]+@[^\s@]+\.[^\s@]+$/`: the whole string splits as a non-empty run,
      `@`, a non-empty run, `.`, a non-empty run, each run free of white space and `@`. */
  predicate MatchesEmailPattern(s: string) {
    exists at, dot | 0 < at && at + 1 < dot < |s| - 1 ::
      s[at] == '@' && s[dot] == '.'
      && AllEmailChars(s[..at]) && AllEmailChars(s[at + 1..dot]) && AllEmailChars(s[dot + 1..])
  }

  /** The shape the pattern describes, stated without splitting: no white space,
      exactly one `@` and not in front, and a `.` in the part after the `@`
      that is neither that part's first nor its last character. */
  predicate HasEmailShape(s: string) {
    (forall i | 0 <= i < |s| :: !IsWhitespace(s[i]))
    && exists at | 0 < at < |s| ::
      s[at] == '@'
      && (forall i | 0 <= i < |s| && i != at :: s[i] != '@')
      && (exists dot | at + 1 < dot < |s| - 1 :: s[dot] == '.')
  }

  lemma EmailPatternIsShape(s: string)
    ensures MatchesEmailPattern(s) <==> HasEmailShape(s)
  {
    if MatchesEmailPattern(s) {
      EmailPatternHasShape(s);
    }
    if HasEmailShape(s) {
      EmailShapeMatchesPattern(s);
    }
  }

  lemma EmailPatternHasShape(s: string)
    requires MatchesEmailPattern(s)
    ensures HasEmailShape(s)
  {
    assert !IsWhitespace('@') && !IsWhitespace('.');
    {
      var at, dot :| 0 < at && at + 1 < dot < |s| - 1 && s[at] == '@' && s[dot] == '.'
        && AllEmailChars(s[..at]) && AllEmailChars(s[at + 1..dot]) && AllEmailChars(s[dot + 1..]);
      forall i | 0 <= i < |s| && i != at && i != dot
        ensures IsEmailChar(s[i])
      {
        if i < at {
          assert s[..at][i] == s[i];
        } else if i < dot {
          assert s[at + 1..dot][i - at - 1] == s[i];
        } else {
          assert s[dot + 1..][i - dot - 1] == s[i];
        }
      }
      assert HasEmailShape(s);
    }
  }

  lemma EmailShapeMatchesPattern(s: string)
    requires HasEmailShape(s)
    ensures MatchesEmailPattern(s)
  {
    {
      var at :| 0 < at < |s| && s[at] == '@'
        && (forall i | 0 <= i < |s| && i != at :: s[i] != '@')
        && (exists dot | at + 1 < dot < |s| - 1 :: s[dot] == '.');
      var dot :| at + 1 < dot < |s| - 1 && s[dot] == '.';
      assert forall i | 0 <= i < |s| && i != at :: IsEmailChar(s[i]);
      assert AllEmailChars(s[..at]);
      var host, tld := s[at + 1..dot], s[dot + 1..];
      forall k | 0 <= k < |host| ensures IsEmailChar(host[k]) {
        assert host[k] == s[at + 1 + k];
      }
      forall k | 0 <= k < |tld| ensures IsEmailChar(tld[k]) {
        assert tld[k] == s[dot + 1 + k];
      }
    }
  }

  function EmailRule(value: string): (r: ValidationResult)
    ensures value == [] ==> r == Invalid("O email é obrigatório")
    ensures value != [] && !r.isValid ==> r == Invalid("Email inválido")
    ensures r.isValid <==> HasEmailShape(value)
    ensures r.isValid <==> r.message == ""
  {
    EmailPatternIsShape(value);
    if value == [] then Invalid("O email é obrigatório")
    else if !MatchesEmailPattern(value) then Invalid("Email inválido")
    else Valid
  }

  // ---------------------------------------------------- length thresholds

  /** The `name` and `pjName` rules (the two are the same code with the same messages). */
  function NameRule(value: string): (r: ValidationResult)
    ensures value == [] ==> r == Invalid("O nome é obrigatório")
    ensures value != [] && !r.isValid ==> r == Invalid("O nome deve ter no mínimo 3 caracteres")
    ensures r.isValid <==> |value| >= 3
    ensures r.isValid <==> r.message == ""
  {
    if value == [] then Invalid("O nome é obrigatório")
    else if |value| < 3 then Invalid("O nome deve ter no mínimo 3 caracteres")
    else Valid
  }

  function PasswordRule(value: string): (r: ValidationResult)
    ensures value == [] ==> r == Invalid("A senha é obrigatória")
    ensures value != [] && !r.isValid ==> r == Invalid("A senha deve ter no mínimo 8 caracteres")
    ensures r.isValid <==> |value| >= 8
    ensures r.isValid <==> r.message == ""
  {
    if value == [] then Invalid("A senha é obrigatória")
    else if |value| < 8 then Invalid("A senha deve ter no mínimo 8 caracteres")
    else Valid
  }

  /** The `phone` and `pjPhone` rules, which differ only in the message for a
      missing value: at least ten digits must remain once everything else is removed. */
  function PhoneRule(value: string, requiredMessage: string): (r: ValidationResult)
    ensures value == [] ==> r == Invalid(requiredMessage)
    ensures value != [] && !r.isValid ==> r == Invalid("Telefone inválido")
    ensures r.isValid <==> |DigitsOnly(value)| >= 10
    ensures r.isValid ==> r.message == ""
  {
    if value == [] then Invalid(requiredMessage)
    else if |DigitsOnly(value)| < 10 then Invalid("Telefone inválido")
    else Valid
  }

  // ---------------------------------------------------------------- dates

  /** `/^(\d{2})\/(\d{2})\/(\d{4})$/` */
  predicate MatchesDatePattern(s: string) {
    |s| == 10 && s[2] == '/' && s[5] == '/'
    && AllDigits(s[..2]) && AllDigits(s[3..5]) && AllDigits(s[6..])
  }

  /** The day, month and year captured by the date pattern, as `Number` reads them. */
  function DateFields(s: string): CivilDate
    requires MatchesDatePattern(s)
  {
    CivilDate(DecimalValue(s[6..]), DecimalValue(s[3..5]), DecimalValue(s[..2]))
  }

  /** The `birthDate` and `startUpDate` rules, which differ only in the message for
      a missing value; `today` is the calendar day of the moment the rule runs. */
  function DateRule(value: string, requiredMessage: string, today: CivilDate): (r: ValidationResult)
    requires IsValidDate(today)
    ensures value == [] ==> r == Invalid(requiredMessage)
    ensures value != [] && !MatchesDatePattern(value) ==> r == Invalid("Data inválida")
    ensures MatchesDatePattern(value) && !r.isValid ==> r == Invalid("Data não pode ser futura")
    ensures r.isValid ==> MatchesDatePattern(value) && r.message == ""
  {
    if value == [] then Invalid(requiredMessage)
    else if !MatchesDatePattern(value) then Invalid("Data inválida")
    else
      var fields := DateFields(value);
      var date := ConstructedDate(fields.year, fields.month, fields.day);
      if IsAfterToday(date, today) then Invalid("Data não pode ser futura")
      else Valid
  }

  /** A well-formed real date (from year 100 on) is accepted exactly when it is
      not later than today in the calendar: today itself is accepted, tomorrow is not. */
  lemma DateRuleOnRealDates(value: string, requiredMessage: string, today: CivilDate)
    requires IsValidDate(today) && MatchesDatePattern(value)
    requires IsValidDate(DateFields(value)) && DateFields(value).year >= 100
    ensures DateRule(value, requiredMessage, today).isValid <==> !Precedes(today, DateFields(value))
  {
    var d := DateFields(value);
    ConstructedRealDate(d.year, d.month, d.day);
    AfterTodayIsCalendarOrder(d, today);
  }

  // ------------------------------------------------ modulus-11 check digits

  /** The Receita Federal check digit of a weighted sum: the remainder r of the
      sum by 11 gives 0 when r < 2, otherwise 11 - r. The `cnpj` rule computes it
      this way; the `cpf` rule computes it differently (see `CpfCheckDigitIsModulus11`). */
  function Modulus11Digit(sum: int): (d: nat)
    ensures d <= 9
  {
    var remainder := sum % 11;
    if remainder < 2 then 0 else 11 - remainder
  }

  /** The weighted sum of the `cpf` rule over the digits `ds`: the first digit
      weighs `factor`, the next `factor - 1`, and so on down the sequence. */
  function CpfWeightedSum(ds: seq<nat>, factor: int): (sum: int)
    ensures |ds| <= factor ==> sum >= 0
  {
    if ds == [] then 0
    else CpfWeightedSum(ds[..|ds| - 1], factor) + ds[|ds| - 1] * (factor - (|ds| - 1))
  }

  /** `calculateDigit(factor)` of the `cpf` rule: the first `factor - 1` digits
      weighted `factor, factor - 1, ..., 2`, then `(sum * 10) % 11` with 10 read as 0. */
  function CpfCheckDigit(ds: seq<nat>, factor: nat): (d: nat)
    requires 1 <= factor <= |ds| + 1
    ensures d <= 9
  {
    var remainder := (CpfWeightedSum(ds[..factor - 1], factor) * 10) % 11;
    if remainder == 10 || remainder == 11 then 0 else remainder
  }

  /** The `(sum * 10) % 11` shortcut of the `cpf` rule is the standard modulus-11
      check digit: 10 * sum is -sum modulo 11. */
  lemma CpfCheckDigitIsModulus11(ds: seq<nat>, factor: nat)
    requires 1 <= factor <= |ds| + 1
    ensures CpfCheckDigit(ds, factor) == Modulus11Digit(CpfWeightedSum(ds[..factor - 1], factor))
  {
    var sum := CpfWeightedSum(ds[..factor - 1], factor);
    var q, r := sum / 11, sum % 11;
    assert sum * 10 == 11 * (10 * q) + 10 * r;
    assert (sum * 10) % 11 == (10 * r) % 11;
    if r == 0 {
    } else if r == 1 {
      assert (10 * r) % 11 == 10;
    } else {
      assert (10 * r) % 11 == 11 - r by {
        assert 10 * r == 11 * (r - 1) + (11 - r);
      }
    }
  }

  /** The sum of the weights `factor, factor - 1, ...` of the first n digits. */
  function WeightTotal(n: nat, factor: int): int {
    if n == 0 then 0 else WeightTotal(n - 1, factor) + (factor - (n - 1))
  }

  /** The weights 10..2 add up to 54, the weights 11..2 to 65. */
  lemma CpfWeightTotals()
    ensures WeightTotal(9, 10) == 54 && WeightTotal(10, 11) == 65
  {
    assert WeightTotal(1, 10) == 10;
    assert WeightTotal(2, 10) == 19;
    assert WeightTotal(3, 10) == 27;
    assert WeightTotal(4, 10) == 34;
    assert WeightTotal(5, 10) == 40;
    assert WeightTotal(6, 10) == 45;
    assert WeightTotal(7, 10) == 49;
    assert WeightTotal(8, 10) == 52;
    assert WeightTotal(1, 11) == 11;
    assert WeightTotal(2, 11) == 21;
    assert WeightTotal(3, 11) == 30;
    assert WeightTotal(4, 11) == 38;
    assert WeightTotal(5, 11) == 45;
    assert WeightTotal(6, 11) == 51;
    assert WeightTotal(7, 11) == 56;
    assert WeightTotal(8, 11) == 60;
    assert WeightTotal(9, 11) == 63;
  }

  /** n equal digits d weigh d times the total weight. */
  lemma {:induction false} CpfWeightedSumOfRepeat(ds: seq<nat>, d: nat, factor: int)
    requires forall i | 0 <= i < |ds| :: ds[i] == d
    ensures CpfWeightedSum(ds, factor) == d * WeightTotal(|ds|, factor)
  {
    if ds != [] {
      CpfWeightedSumOfRepeat(ds[..|ds| - 1], d, factor);
      assert d * WeightTotal(|ds|, factor) == d * WeightTotal(|ds| - 1, factor) + d * (factor - (|ds| - 1));
    }
  }

  // ------------------------------------------------------------------ cpf

  /** The ten eleven-digit strings of one repeated digit, listed in the `cpf` rule. */
  const RepeatedCpfs: seq<string> := [
    "00000000000", "11111111111", "22222222222", "33333333333", "44444444444",
    "55555555555", "66666666666", "77777777777", "88888888888", "99999999999"
  ]

  predicate SameDigitThroughout(s: string) {
    forall i | 0 <= i < |s| :: s[i] == s[0]
  }

  function CpfRule(value: string): (r: ValidationResult)
    ensures value == [] ==> r == Invalid("O CPF é obrigatório")
    ensures value != [] && !r.isValid ==> r == Invalid("CPF inválido")
    ensures r.isValid ==> |DigitsOnly(value)| == 11 && DigitsOnly(value) !in RepeatedCpfs
    ensures r.isValid <==> r.message == ""
  {
    if value == [] then Invalid("O CPF é obrigatório")
    else
      var cleaned := DigitsOnly(value);
      if |cleaned| != 11 || cleaned in RepeatedCpfs then Invalid("CPF inválido")
      else
        var digits := DigitValues(cleaned);
        if CpfCheckDigit(digits, 10) != digits[9] || CpfCheckDigit(digits, 11) != digits[10] then
          Invalid("CPF inválido")
        else Valid
  }

  /** The listed strings are exactly the eleven-digit strings of one repeated digit. */
  lemma RepeatedCpfsAreSameDigit(s: string)
    ensures s in RepeatedCpfs <==> |s| == 11 && AllDigits(s) && SameDigitThroughout(s)
  {
    if |s| == 11 && AllDigits(s) && SameDigitThroughout(s) {
      var i := DigitValue(s[0]);
      var listed := RepeatedCpfs[i];
      assert |listed| == 11 && listed[0] == s[0] && SameDigitThroughout(listed);
      assert s == listed;
    }
  }

  /** The checksum test alone would accept every listed string: the list is what rejects them. */
  lemma RepeatedCpfsPassChecksum(s: string)
    requires s in RepeatedCpfs
    ensures AllDigits(s) && |s| == 11
    ensures CpfCheckDigit(DigitValues(s), 10) == DigitValues(s)[9]
    ensures CpfCheckDigit(DigitValues(s), 11) == DigitValues(s)[10]
    ensures CpfRule(s) == Invalid("CPF inválido")
  {
    RepeatedCpfsAreSameDigit(s);
    var ds := DigitValues(s);
    var d := ds[0];
    CpfWeightTotals();
    CpfWeightedSumOfRepeat(ds[..9], d, 10);
    CpfWeightedSumOfRepeat(ds[..10], d, 11);
    assert (d * 54 * 10) % 11 == d by {
      assert d * 54 * 10 == 11 * (49 * d) + d;
    }
    assert (d * 65 * 10) % 11 == d by {
      assert d * 65 * 10 == 11 * (59 * d) + d;
    }
    DigitsOnlyIdentity(s);
  }

  /** A CPF number as the Receita Federal defines it: eleven digits, not all
      the same, whose last two are the modulus-11 check digits of the nine and
      then ten digits before them, weighted 10..2 and 11..2. */
  predicate IsCpfNumber(c: string) {
    |c| == 11 && AllDigits(c) && !SameDigitThroughout(c)
    && DigitValue(c[9]) == Modulus11Digit(CpfWeightedSum(DigitValues(c[..9]), 10))
    && DigitValue(c[10]) == Modulus11Digit(CpfWeightedSum(DigitValues(c[..10]), 11))
  }

  lemma DigitValuesPrefix(s: string, n: nat)
    requires AllDigits(s) && n <= |s|
    ensures DigitValues(s)[..n] == DigitValues(s[..n])
  {
  }

  /** The `cpf` rule accepts a non-empty value exactly when its digits form a CPF number. */
  lemma CpfRuleAcceptsCpfNumbers(value: string)
    ensures CpfRule(value).isValid <==> value != [] && IsCpfNumber(DigitsOnly(value))
  {
    var c := DigitsOnly(value);
    RepeatedCpfsAreSameDigit(c);
    if |c| == 11 {
      var ds := DigitValues(c);
      DigitValuesPrefix(c, 9);
      DigitValuesPrefix(c, 10);
      CpfCheckDigitIsModulus11(ds, 10);
      CpfCheckDigitIsModulus11(ds, 11);
    }
  }

  /** Completes nine digits with the two check digits the `cpf` rule expects. */
  function CpfWithCheckDigits(base: string): (c: string)
    requires |base| == 9 && AllDigits(base)
    ensures |c| == 11 && AllDigits(c) && c[..9] == base
  {
    var ds := DigitValues(base);
    var first := CpfCheckDigit(ds, 10);
    var second := CpfCheckDigit(ds + [first], 11);
    base + [DigitChar(first), DigitChar(second)]
  }

  lemma CpfWithCheckDigitsValues(base: string)
    requires |base| == 9 && AllDigits(base)
    ensures var c := CpfWithCheckDigits(base); var ds := DigitValues(c);
      CpfCheckDigit(ds, 10) == ds[9] && CpfCheckDigit(ds, 11) == ds[10]
  {
    var c := CpfWithCheckDigits(base);
    var ds := DigitValues(c);
    var bs := DigitValues(base);
    assert ds[..9] == bs[..9] == bs;
    assert ds[..10] == (bs + [ds[9]])[..10];
  }

  /** Every nine digits not all the same have exactly one valid completion:
      the completion is accepted, and any accepted value is the completion of its first nine digits. */
  lemma CpfWithCheckDigitsAccepted(base: string)
    requires |base| == 9 && AllDigits(base)
    ensures CpfRule(CpfWithCheckDigits(base)).isValid <==> !SameDigitThroughout(base)
  {
    var c := CpfWithCheckDigits(base);
    DigitsOnlyIdentity(c);
    CpfWithCheckDigitsValues(base);
    RepeatedCpfsAreSameDigit(c);
    if SameDigitThroughout(base) {
      CpfWithCheckDigitsOfRepeat(base);
    } else {
      assert !SameDigitThroughout(c) by {
        assert c[..9] == base;
      }
    }
  }

  /** Nine equal digits complete to eleven equal digits, one of the listed strings. */
  lemma CpfWithCheckDigitsOfRepeat(base: string)
    requires |base| == 9 && AllDigits(base) && SameDigitThroughout(base)
    ensures SameDigitThroughout(CpfWithCheckDigits(base))
  {
    var bs := DigitValues(base);
    var d := bs[0];
    CpfWeightTotals();
    assert bs[..9] == bs;
    CpfWeightedSumOfRepeat(bs, d, 10);
    assert (d * 54 * 10) % 11 == d by {
      assert d * 54 * 10 == 11 * (49 * d) + d;
    }
    var first := CpfCheckDigit(bs, 10);
    assert first == d;
    var extended := bs + [first];
    assert extended[..10] == extended;
    CpfWeightedSumOfRepeat(extended, d, 11);
    assert (d * 65 * 10) % 11 == d by {
      assert d * 65 * 10 == 11 * (59 * d) + d;
    }
    assert CpfCheckDigit(extended, 11) == d;
  }

  lemma CpfCheckDigitsDetermined(value: string)
    requires CpfRule(value).isValid
    ensures var c := DigitsOnly(value); c == CpfWithCheckDigits(c[..9])
  {
    var c := DigitsOnly(value);
    var ds := DigitValues(c);
    var bs := DigitValues(c[..9]);
    DigitValuesPrefix(c, 9);
    assert bs[..9] == ds[..9];
    assert bs + [ds[9]] == ds[..10];
    assert CpfCheckDigit(bs, 10) == ds[9];
    assert CpfCheckDigit(bs + [ds[9]], 11) == ds[10] by {
      assert (bs + [ds[9]])[..10] == ds[..10];
    }
    assert DigitChar(ds[9]) == c[9] && DigitChar(ds[10]) == c[10];
    assert c == c[..9] + [c[9], c[10]];
  }

  /** Changing either check digit of an accepted CPF (or anything else while
      keeping the first nine digits) makes it rejected. */
  lemma CpfCheckDigitChangeRejected(value: string, other: string)
    requires CpfRule(value).isValid
    requires |DigitsOnly(other)| == 11 && DigitsOnly(other)[..9] == DigitsOnly(value)[..9]
    requires DigitsOnly(other) != DigitsOnly(value)
    ensures !CpfRule(other).isValid
  {
    CpfCheckDigitsDetermined(value);
    if CpfRule(other).isValid {
      CpfCheckDigitsDetermined(other);
    }
  }

  /** Inserting or deleting punctuation never changes the verdict on a non-empty value. */
  lemma CpfRuleIgnoresPunctuation(a: string, p: char, b: string)
    requires !IsDigit(p) && a + b != []
    ensures CpfRule(a + [p] + b) == CpfRule(a + b)
  {
    DigitsOnlyIgnoresPunctuation(a, p, b);
  }

  // ----------------------------------------------------------------- cnpj

  const CnpjWeights: seq<nat> := [6, 5, 4, 3, 2, 9, 8, 7, 6, 5, 4, 3, 2]

  const ZeroCnpj: string := "00000000000000"

  /** The weighted sum of the `cnpj` rule over the leading digits `ds`: the
      weights are taken from the right end of the table, so the last digit of `ds`
      meets the table's last weight; `offset` is how many weights are skipped at
      the table's left end. */
  function CnpjWeightedSum(ds: seq<nat>, offset: nat): int
    requires offset + |ds| <= |CnpjWeights|
  {
    if ds == [] then 0
    else CnpjWeightedSum(ds[..|ds| - 1], offset) + ds[|ds| - 1] * CnpjWeights[offset + |ds| - 1]
  }

  /** `calculateDigit(length)` of the `cnpj` rule. */
  function CnpjCheckDigit(ds: seq<nat>, length: nat): (d: nat)
    requires length <= |CnpjWeights| && length <= |ds|
    ensures d <= 9
  {
    Modulus11Digit(CnpjWeightedSum(ds[..length], |CnpjWeights| - length))
  }

  function CnpjRule(value: string): (r: ValidationResult)
    ensures value == [] ==> r == Invalid("O CNPJ é obrigatório")
    ensures value != [] && !r.isValid ==> r == Invalid("CNPJ inválido")
    ensures r.isValid ==> |DigitsOnly(value)| == 14 && DigitsOnly(value) != ZeroCnpj
    ensures r.isValid <==> r.message == ""
  {
    if value == [] then Invalid("O CNPJ é obrigatório")
    else
      var cleaned := DigitsOnly(value);
      if |cleaned| != 14 || cleaned == ZeroCnpj then Invalid("CNPJ inválido")
      else
        var digits := DigitValues(cleaned);
        if CnpjCheckDigit(digits, 12) != digits[12] || CnpjCheckDigit(digits, 13) != digits[13] then
          Invalid("CNPJ inválido")
        else Valid
  }

  /** The standard CNPJ weighting, counted from the right: the digit k places
      from the right end weighs 2 + k % 8, so the weights run 2, 3, ..., 9, 2, 3, ...
      leftwards. `k` is the place of the last element of `ds`. */
  function RightCyclicSum(ds: seq<nat>, k: nat): int {
    if ds == [] then 0
    else RightCyclicSum(ds[..|ds| - 1], k + 1) + ds[|ds| - 1] * (2 + k % 8)
  }

  /** The weight table read from the right is the cycle 2..9. */
  lemma CnpjWeightFromRight(j: nat)
    requires j < |CnpjWeights|
    ensures CnpjWeights[j] == 2 + (|CnpjWeights| - 1 - j) % 8
  {
  }

  /** Right-aligning the weight table gives the standard cyclic weighting. */
  lemma {:induction false} CnpjWeightedSumIsRightCyclic(ds: seq<nat>, offset: nat)
    requires offset + |ds| <= |CnpjWeights|
    ensures CnpjWeightedSum(ds, offset) == RightCyclicSum(ds, |CnpjWeights| - offset - |ds|)
  {
    if ds != [] {
      CnpjWeightedSumIsRightCyclic(ds[..|ds| - 1], offset);
      CnpjWeightFromRight(offset + |ds| - 1);
    }
  }

  /** A CNPJ number as the Receita Federal defines it: fourteen digits, not all
      zero, whose last two are the modulus-11 check digits of the twelve and then
      thirteen digits before them, weighted cyclically 2..9 from the right. */
  predicate IsCnpjNumber(c: string) {
    |c| == 14 && AllDigits(c) && c != ZeroCnpj
    && DigitValue(c[12]) == Modulus11Digit(RightCyclicSum(DigitValues(c[..12]), 0))
    && DigitValue(c[13]) == Modulus11Digit(RightCyclicSum(DigitValues(c[..13]), 0))
  }

  /** The `cnpj` rule accepts a non-empty value exactly when its digits form a CNPJ number. */
  lemma CnpjRuleAcceptsCnpjNumbers(value: string)
    ensures CnpjRule(value).isValid <==> value != [] && IsCnpjNumber(DigitsOnly(value))
  {
    var c := DigitsOnly(value);
    if |c| == 14 {
      var ds := DigitValues(c);
      DigitValuesPrefix(c, 12);
      DigitValuesPrefix(c, 13);
      CnpjWeightedSumIsRightCyclic(ds[..12], 1);
      CnpjWeightedSumIsRightCyclic(ds[..13], 0);
    }
  }

  /** The sum of the n weights from position `offset` of the table. */
  function CnpjWeightTotal(offset: nat, n: nat): int
    requires offset + n <= |CnpjWeights|
  {
    if n == 0 then 0 else CnpjWeightTotal(offset, n - 1) + CnpjWeights[offset + n - 1]
  }

  lemma CnpjFirstWeightTotal()
    ensures CnpjWeightTotal(1, 12) == 58
  {
    assert CnpjWeightTotal(1, 0) == 0;
    assert CnpjWeightTotal(1, 1) == 5;
    assert CnpjWeightTotal(1, 2) == 9;
    assert CnpjWeightTotal(1, 3) == 12;
    assert CnpjWeightTotal(1, 4) == 14;
    assert CnpjWeightTotal(1, 5) == 23;
    assert CnpjWeightTotal(1, 6) == 31;
    assert CnpjWeightTotal(1, 7) == 38;
    assert CnpjWeightTotal(1, 8) == 44;
    assert CnpjWeightTotal(1, 9) == 49;
    assert CnpjWeightTotal(1, 10) == 53;
    assert CnpjWeightTotal(1, 11) == 56;
  }

  /** n equal digits d weigh d times the weights they sit under. */
  lemma {:induction false} CnpjWeightedSumOfRepeat(ds: seq<nat>, d: nat, offset: nat)
    requires offset + |ds| <= |CnpjWeights|
    requires forall i | 0 <= i < |ds| :: ds[i] == d
    ensures CnpjWeightedSum(ds, offset) == d * CnpjWeightTotal(offset, |ds|)
  {
    if ds != [] {
      CnpjWeightedSumOfRepeat(ds[..|ds| - 1], d, offset);
      var w := CnpjWeights[offset + |ds| - 1];
      assert d * (CnpjWeightTotal(offset, |ds| - 1) + w) == d * CnpjWeightTotal(offset, |ds| - 1) + d * w;
    }
  }

  /** The checksum test alone would accept fourteen zeros: the explicit zero test is what rejects them. */
  lemma ZeroCnpjPassesChecksum()
    ensures AllDigits(ZeroCnpj) && |ZeroCnpj| == 14
    ensures CnpjCheckDigit(DigitValues(ZeroCnpj), 12) == DigitValues(ZeroCnpj)[12]
    ensures CnpjCheckDigit(DigitValues(ZeroCnpj), 13) == DigitValues(ZeroCnpj)[13]
    ensures CnpjRule(ZeroCnpj) == Invalid("CNPJ inválido")
  {
    var ds := DigitValues(ZeroCnpj);
    CnpjWeightedSumOfRepeat(ds[..12], 0, 1);
    CnpjWeightedSumOfRepeat(ds[..13], 0, 0);
    DigitsOnlyIdentity(ZeroCnpj);
  }

  /** Unlike the `cpf` rule, the `cnpj` rule needs no list of repeated digits
      beyond zero: fourteen equal non-zero digits already fail the first check digit. */
  lemma RepeatedCnpjFailsChecksum(d: nat)
    requires 1 <= d <= 9
    ensures var c := seq(14, _ => DigitChar(d));
      CnpjCheckDigit(DigitValues(c), 12) != d && !CnpjRule(c).isValid
  {
    var c := seq(14, _ => DigitChar(d));
    var ds := DigitValues(c);
    assert forall i | 0 <= i < 12 :: ds[..12][i] == d;
    CnpjWeightedSumOfRepeat(ds[..12], d, 1);
    CnpjFirstWeightTotal();
    assert Modulus11Digit(d * 58) != d;
    DigitsOnlyIdentity(c);
  }

  /** Completes twelve digits with the two check digits the `cnpj` rule expects. */
  function CnpjWithCheckDigits(base: string): (c: string)
    requires |base| == 12 && AllDigits(base)
    ensures |c| == 14 && AllDigits(c) && c[..12] == base
  {
    var ds := DigitValues(base);
    var first := CnpjCheckDigit(ds, 12);
    var second := CnpjCheckDigit(ds + [first], 13);
    base + [DigitChar(first), DigitChar(second)]
  }

  /** Every twelve digits not all zero have exactly one valid completion:
      the completion is accepted, and any accepted value is the completion of its first twelve digits. */
  lemma CnpjWithCheckDigitsAccepted(base: string)
    requires |base| == 12 && AllDigits(base)
    ensures CnpjRule(CnpjWithCheckDigits(base)).isValid <==> base != ZeroCnpj[..12]
  {
    var c := CnpjWithCheckDigits(base);
    DigitsOnlyIdentity(c);
    var ds := DigitValues(c);
    var bs := DigitValues(base);
    assert ds[..12] == bs[..12] == bs;
    assert ds[..13] == (bs + [ds[12]])[..13];
    if base == ZeroCnpj[..12] {
      assert forall i | 0 <= i < 12 :: bs[i] == 0;
      CnpjWeightedSumOfRepeat(bs, 0, 1);
      var extended := bs + [0];
      assert extended[..13] == extended;
      CnpjWeightedSumOfRepeat(extended, 0, 0);
      assert c == ZeroCnpj;
    } else {
      assert c != ZeroCnpj by {
        assert c[..12] == base;
      }
    }
  }

  lemma CnpjCheckDigitsDetermined(value: string)
    requires CnpjRule(value).isValid
    ensures var c := DigitsOnly(value); c == CnpjWithCheckDigits(c[..12])
  {
    var c := DigitsOnly(value);
    var ds := DigitValues(c);
    var bs := DigitValues(c[..12]);
    DigitValuesPrefix(c, 12);
    assert bs[..12] == ds[..12];
    assert CnpjCheckDigit(bs, 12) == ds[12];
    assert CnpjCheckDigit(bs + [ds[12]], 13) == ds[13] by {
      assert (bs + [ds[12]])[..13] == ds[..13];
    }
    assert DigitChar(ds[12]) == c[12] && DigitChar(ds[13]) == c[13];
    assert c == c[..12] + [c[12], c[13]];
  }

  /** Changing either check digit of an accepted CNPJ (or anything else while
      keeping the first twelve digits) makes it rejected. */
  lemma CnpjCheckDigitChangeRejected(value: string, other: string)
    requires CnpjRule(value).isValid
    requires |DigitsOnly(other)| == 14 && DigitsOnly(other)[..12] == DigitsOnly(value)[..12]
    requires DigitsOnly(other) != DigitsOnly(value)
    ensures !CnpjRule(other).isValid
  {
    CnpjCheckDigitsDetermined(value);
    if CnpjRule(other).isValid {
      CnpjCheckDigitsDetermined(other);
    }
  }

  /** Inserting or deleting punctuation never changes the verdict on a non-empty value. */
  lemma CnpjRuleIgnoresPunctuation(a: string, p: char, b: string)
    requires !IsDigit(p) && a + b != []
    ensures CnpjRule(a + [p] + b) == CnpjRule(a + b)
  {
    DigitsOnlyIgnoresPunctuation(a, p, b);
  }

  // ------------------------------------------------------------- examples

  lemma CpfWeightedSumStep(ds: seq<nat>, k: nat, factor: int)
    requires k < |ds|
    ensures CpfWeightedSum(ds[..k + 1], factor) == CpfWeightedSum(ds[..k], factor) + ds[k] * (factor - k)
  {
    assert ds[..k + 1][..k] == ds[..k];
  }

  lemma CnpjWeightedSumStep(ds: seq<nat>, k: nat, offset: nat)
    requires k < |ds| && offset + k + 1 <= |CnpjWeights|
    ensures CnpjWeightedSum(ds[..k + 1], offset) == CnpjWeightedSum(ds[..k], offset) + ds[k] * CnpjWeights[offset + k]
  {
    assert ds[..k + 1][..k] == ds[..k];
  }

  lemma CpfExampleFirstSum(p: seq<nat>)
    requires p == [5, 2, 9, 9, 8, 2, 2, 4, 7, 2]
    ensures CpfWeightedSum(p[..9], 10) == 295
  {
    assert p[..0] == [];
    CpfWeightedSumStep(p, 0, 10);
    CpfWeightedSumStep(p, 1, 10);
    CpfWeightedSumStep(p, 2, 10);
    CpfWeightedSumStep(p, 3, 10);
    CpfWeightedSumStep(p, 4, 10);
    CpfWeightedSumStep(p, 5, 10);
    CpfWeightedSumStep(p, 6, 10);
    CpfWeightedSumStep(p, 7, 10);
    CpfWeightedSumStep(p, 8, 10);
  }

  lemma CpfExampleSecondSum(p: seq<nat>)
    requires p == [5, 2, 9, 9, 8, 2, 2, 4, 7, 2]
    ensures CpfWeightedSum(p, 11) == 347
  {
    assert p[..0] == [] && p[..10] == p;
    CpfWeightedSumStep(p, 0, 11);
    CpfWeightedSumStep(p, 1, 11);
    CpfWeightedSumStep(p, 2, 11);
    CpfWeightedSumStep(p, 3, 11);
    CpfWeightedSumStep(p, 4, 11);
    CpfWeightedSumStep(p, 5, 11);
    CpfWeightedSumStep(p, 6, 11);
    CpfWeightedSumStep(p, 7, 11);
    CpfWeightedSumStep(p, 8, 11);
    CpfWeightedSumStep(p, 9, 11);
  }

  lemma CpfExampleCheckDigits(ds: seq<nat>)
    requires |ds| == 11 && ds[..10] == [5, 2, 9, 9, 8, 2, 2, 4, 7, 2]
    ensures CpfCheckDigit(ds, 10) == 2 && CpfCheckDigit(ds, 11) == 5
  {
    var p := ds[..10];
    CpfExampleFirstSum(p);
    CpfExampleSecondSum(p);
    assert ds[..9] == p[..9];
  }

  /** Example: any writing of the CPF 529.982.247-25, that is any value whose
      digits are 52998224725, is valid. */
  lemma CpfExampleAccepted(value: string)
    requires DigitValues(DigitsOnly(value)) == [5, 2, 9, 9, 8, 2, 2, 4, 7, 2, 5]
    ensures CpfRule(value).isValid
  {
    var c := DigitsOnly(value);
    RepeatedCpfsAreSameDigit(c);
    assert c[0] != c[1];
    CpfExampleCheckDigits(DigitValues(c));
  }

  /** Example: changing its last digit, 52998224726, makes it invalid. */
  lemma CpfExampleTypoRejected(value: string)
    requires DigitValues(DigitsOnly(value)) == [5, 2, 9, 9, 8, 2, 2, 4, 7, 2, 6]
    ensures !CpfRule(value).isValid
  {
    var c := DigitsOnly(value);
    RepeatedCpfsAreSameDigit(c);
    assert c[0] != c[1];
    CpfExampleCheckDigits(DigitValues(c));
  }

  lemma CnpjExampleFirstSum(p: seq<nat>)
    requires p == [1, 1, 4, 4, 4, 7, 7, 7, 0, 0, 0, 1, 6]
    ensures CnpjWeightedSum(p[..12], 1) == 214
  {
    assert p[..0] == [];
    CnpjWeightedSumStep(p, 0, 1);
    CnpjWeightedSumStep(p, 1, 1);
    CnpjWeightedSumStep(p, 2, 1);
    CnpjWeightedSumStep(p, 3, 1);
    CnpjWeightedSumStep(p, 4, 1);
    CnpjWeightedSumStep(p, 5, 1);
    CnpjWeightedSumStep(p, 6, 1);
    CnpjWeightedSumStep(p, 7, 1);
    CnpjWeightedSumStep(p, 8, 1);
    CnpjWeightedSumStep(p, 9, 1);
    CnpjWeightedSumStep(p, 10, 1);
    CnpjWeightedSumStep(p, 11, 1);
  }

  lemma CnpjExampleSecondSumFront(p: seq<nat>)
    requires p == [1, 1, 4, 4, 4, 7, 7, 7, 0, 0, 0, 1, 6]
    ensures CnpjWeightedSum(p[..7], 0) == 166
  {
    assert p[..0] == [];
    CnpjWeightedSumStep(p, 0, 0);
    CnpjWeightedSumStep(p, 1, 0);
    CnpjWeightedSumStep(p, 2, 0);
    CnpjWeightedSumStep(p, 3, 0);
    CnpjWeightedSumStep(p, 4, 0);
    CnpjWeightedSumStep(p, 5, 0);
    CnpjWeightedSumStep(p, 6, 0);
  }

  lemma CnpjExampleSecondSum(p: seq<nat>)
    requires p == [1, 1, 4, 4, 4, 7, 7, 7, 0, 0, 0, 1, 6]
    ensures CnpjWeightedSum(p, 0) == 230
  {
    CnpjExampleSecondSumFront(p);
    assert p[..13] == p;
    CnpjWeightedSumStep(p, 7, 0);
    CnpjWeightedSumStep(p, 8, 0);
    CnpjWeightedSumStep(p, 9, 0);
    CnpjWeightedSumStep(p, 10, 0);
    CnpjWeightedSumStep(p, 11, 0);
    CnpjWeightedSumStep(p, 12, 0);
  }

  lemma CnpjExampleCheckDigits(ds: seq<nat>)
    requires |ds| == 14 && ds[..13] == [1, 1, 4, 4, 4, 7, 7, 7, 0, 0, 0, 1, 6]
    ensures CnpjCheckDigit(ds, 12) == 6 && CnpjCheckDigit(ds, 13) == 1
  {
    var p := ds[..13];
    CnpjExampleFirstSum(p);
    CnpjExampleSecondSum(p);
    assert ds[..12] == p[..12];
  }

  /** Example: any writing of the CNPJ 11.444.777/0001-61, that is any value whose
      digits are 11444777000161, is valid. */
  lemma CnpjExampleAccepted(value: string)
    requires DigitValues(DigitsOnly(value)) == [1, 1, 4, 4, 4, 7, 7, 7, 0, 0, 0, 1, 6, 1]
    ensures CnpjRule(value).isValid
  {
    var c := DigitsOnly(value);
    assert c[0] != '0';
    CnpjExampleCheckDigits(DigitValues(c));
  }

  /** Example: changing its last digit, 11444777000162, makes it invalid. */
  lemma CnpjExampleTypoRejected(value: string)
    requires DigitValues(DigitsOnly(value)) == [1, 1, 4, 4, 4, 7, 7, 7, 0, 0, 0, 1, 6, 2]
    ensures !CnpjRule(value).isValid
  {
    var c := DigitsOnly(value);
    assert c[0] != '0';
    CnpjExampleCheckDigits(DigitValues(c));
  }

  // ------------------------------------------------------ the rule table

  datatype Field =
    | Email | Name | Cpf | BirthDate | Phone
    | PjName | Cnpj | PjPhone | StartUpDate | Password

  /** The key of each field in `validationRules` and in the request body. */
  function FieldKey(f: Field): string {
    match f
    case Email => "email"
    case Name => "name"
    case Cpf => "cpf"
    case BirthDate => "birthDate"
    case Phone => "phone"
    case PjName => "pjName"
    case Cnpj => "cnpj"
    case PjPhone => "pjPhone"
    case StartUpDate => "startUpDate"
    case Password => "password"
  }

  /** Distinct fields have distinct keys, so each field reads its own entry. */
  lemma FieldKeysDistinct(f: Field, g: Field)
    requires f != g
    ensures FieldKey(f) != FieldKey(g)
  {
  }

  /** The message each rule gives for a missing value. */
  function RequiredMessage(f: Field): string {
    match f
    case Email => "O email é obrigatório"
    case Name => "O nome é obrigatório"
    case Cpf => "O CPF é obrigatório"
    case BirthDate => "A data de nascimento é obrigatória"
    case Phone => "O telefone é obrigatório"
    case PjName => "O nome é obrigatório"
    case Cnpj => "O CNPJ é obrigatório"
    case PjPhone => "O telefone da empresa é obrigatório"
    case StartUpDate => "A data de abertura é obrigatória"
    case Password => "A senha é obrigatória"
  }

  /** `validationRules[field](value)`; `today` stands for the clock the date rules read. */
  function Validate(f: Field, value: string, today: CivilDate): (r: ValidationResult)
    requires IsValidDate(today)
    ensures value == [] ==> r == Invalid(RequiredMessage(f))
    ensures r.message == RequiredMessage(f) <==> value == []
    ensures r.isValid <==> r.message == ""
  {
    match f
    case Email => EmailRule(value)
    case Name => NameRule(value)
    case Cpf => CpfRule(value)
    case BirthDate => DateRule(value, "A data de nascimento é obrigatória", today)
    case Phone => PhoneRule(value, "O telefone é obrigatório")
    case PjName => NameRule(value)
    case Cnpj => CnpjRule(value)
    case PjPhone => PhoneRule(value, "O telefone da empresa é obrigatório")
    case StartUpDate => DateRule(value, "A data de abertura é obrigatória", today)
    case Password => PasswordRule(value)
  }

  const CommonFields: seq<Field> := [Email, Password]

  const PfFields: seq<Field> := CommonFields + [Name, Cpf, BirthDate, Phone]

  const PjFields: seq<Field> := CommonFields + [PjName, Cnpj, PjPhone, StartUpDate]

  /** `signUpFields`: the ordered field list of each kind of registrant. */
  const SignUpFields: map<string, seq<Field>> := map["pf" := PfFields, "pj" := PjFields]

  /** The two kinds each list six distinct fields, the common ones first; the
      lists share only the common fields, and between them cover every rule. */
  lemma SignUpFieldLists()
    ensures SignUpFields.Keys == {"pf", "pj"}
    ensures forall kind | kind in SignUpFields ::
      |SignUpFields[kind]| == 6 && SignUpFields[kind][..2] == CommonFields
    ensures forall kind | kind in SignUpFields ::
      forall i, j | 0 <= i < j < |SignUpFields[kind]| :: SignUpFields[kind][i] != SignUpFields[kind][j]
    ensures forall f | f in SignUpFields["pf"] && f in SignUpFields["pj"] :: f in CommonFields
    ensures forall f: Field :: f in SignUpFields["pf"] || f in SignUpFields["pj"]
  {
    forall f: Field ensures f in SignUpFields["pf"] || f in SignUpFields["pj"] {
      match f
      case Email => assert PfFields[0] == f;
      case Password => assert PfFields[1] == f;
      case Name => assert PfFields[2] == f;
      case Cpf => assert PfFields[3] == f;
      case BirthDate => assert PfFields[4] == f;
      case Phone => assert PfFields[5] == f;
      case PjName => assert PjFields[2] == f;
      case Cnpj => assert PjFields[3] == f;
      case PjPhone => assert PjFields[4] == f;
      case StartUpDate => assert PjFields[5] == f;
    }
  }
}
