/** The input-mask helpers of the sign-up form: `removeMask` keeps the digits of
    a value, and `applyMask` keeps at most `maxLength` of them and, when the
    pattern's regular expression matches, regroups them with the pattern's
    separators. */
module MaskPatterns {
  import opened Digits
  import opened Wrappers

  /** The four entries of `maskPatterns`. */
  datatype MaskPattern = PhoneMask | CpfMask | CnpjMask | DateMask

  function MaxLength(p: MaskPattern): nat {
    match p
    case PhoneMask => 11
    case CpfMask => 11
    case CnpjMask => 14
    case DateMask => 8
  }

  /** The lengths of the capture groups when the pattern's regular expression
      (`(\d{2})(\d{4,5})(\d{4})`, `(\d{3})(\d{3})(\d{3})(\d{2})`,
      `(\d{2})(\d{3})(\d{3})(\d{4})(\d{2})`, `(\d{2})(\d{2})(\d{4})`) is run on
      `n` digits with n at most `MaxLength(p)`; `None` when it does not match.
      The leftmost match starts at the first digit and, the quantifiers being
      greedy, is as long as the string allows, which is all of it: the longest
      match of each expression is exactly `MaxLength(p)` digits. */
  function GroupLengths(p: MaskPattern, n: nat): (r: Option<seq<nat>>)
    requires n <= MaxLength(p)
    ensures r.Some? ==> Sum(r.value) == n && |r.value| + 1 == |Separators(p)|
  {
    match p
    case PhoneMask => if n == 11 then Some([2, 5, 4]) else if n == 10 then Some([2, 4, 4]) else None
    case CpfMask => if n == 11 then Some([3, 3, 3, 2]) else None
    case CnpjMask => if n == 14 then Some([2, 3, 3, 4, 2]) else None
    case DateMask => if n == 8 then Some([2, 2, 4]) else None
  }

  /** The literal text of each format around and between `$1`, `$2`, ...:
      `($1) $2-$3`, `$1.$2.$3-$4`, `$1.$2.$3/$4-$5`, `$1/$2/$3`. */
  function Separators(p: MaskPattern): seq<string> {
    match p
    case PhoneMask => ["(", ") ", "-", ""]
    case CpfMask => ["", ".", ".", "-", ""]
    case CnpjMask => ["", ".", ".", "/", "-", ""]
    case DateMask => ["", "/", "/", ""]
  }

  function Sum(ns: seq<nat>): nat {
    if ns == [] then 0 else ns[0] + Sum(ns[1..])
  }

  /** `cleaned.replace(regex, format)` when the match covers all of `digits`:
      separator, group, separator, group, ..., separator. */
  function Format(digits: string, lengths: seq<nat>, separators: seq<string>): string
    requires |separators| == |lengths| + 1 && Sum(lengths) == |digits|
    decreases lengths
  {
    if lengths == [] then separators[0]
    else separators[0] + digits[..lengths[0]]
         + Format(digits[lengths[0]..], lengths[1..], separators[1..])
  }

  /** `removeMask(value)`: the empty value gives the empty string, any other
      value its digits. */
  function RemoveMask(value: string): (r: string)
    ensures r == DigitsOnly(value)
  {
    if value == [] then "" else DigitsOnly(value)
  }

  /** `applyMask(value, regex, format, maxLength)` with one of the shipped
      patterns, or with no format at all (`None`). */
  function ApplyMask(value: string, pattern: Option<MaskPattern>): (r: string)
    ensures pattern == None ==> r == value
    ensures value == [] ==> r == ""
  {
    if pattern == None || value == [] then value
    else
      var p := pattern.value;
      var cleaned := RemoveMask(value);
      if |cleaned| > MaxLength(p) then cleaned[..MaxLength(p)]
      else match GroupLengths(p, |cleaned|)
        case Some(lengths) => Format(cleaned, lengths, Separators(p))
        case None => cleaned
  }

  lemma SeparatorsHaveNoDigits(p: MaskPattern)
    ensures forall k | 0 <= k < |Separators(p)| :: NoDigits(Separators(p)[k])
  {
  }

  /** Formatting only adds separators: removing them gives back the digits. */
  lemma {:induction false} FormatKeepsDigits(digits: string, lengths: seq<nat>, separators: seq<string>)
    requires |separators| == |lengths| + 1 && Sum(lengths) == |digits|
    requires AllDigits(digits)
    requires forall k | 0 <= k < |separators| :: NoDigits(separators[k])
    ensures DigitsOnly(Format(digits, lengths, separators)) == digits
  {
    DigitsOnlyOfNoDigits(separators[0]);
    if lengths != [] {
      var head, rest := digits[..lengths[0]], digits[lengths[0]..];
      FormatKeepsDigits(rest, lengths[1..], separators[1..]);
      DigitsOnlyIdentity(head);
      var tail := Format(rest, lengths[1..], separators[1..]);
      DigitsOnlyAppend(separators[0] + head, tail);
      DigitsOnlyAppend(separators[0], head);
      assert head + rest == digits;
    }
  }

  /** `removeMask(applyMask(v))` is the first `maxLength` digits of `v`. */
  lemma RemoveMaskUndoesApplyMask(value: string, p: MaskPattern)
    ensures var cleaned := RemoveMask(value);
      RemoveMask(ApplyMask(value, Some(p)))
        == if |cleaned| > MaxLength(p) then cleaned[..MaxLength(p)] else cleaned
  {
    var cleaned := RemoveMask(value);
    if |cleaned| > MaxLength(p) {
      DigitsOnlyIdentity(cleaned[..MaxLength(p)]);
    } else if value == [] {
    } else {
      match GroupLengths(p, |cleaned|)
      case Some(lengths) =>
        SeparatorsHaveNoDigits(p);
        FormatKeepsDigits(cleaned, lengths, Separators(p));
      case None =>
        DigitsOnlyIdentity(cleaned);
    }
  }

  /** When the digits fit, masking a masked value changes nothing. */
  lemma ApplyMaskIdempotentWhenFits(value: string, p: MaskPattern)
    requires |RemoveMask(value)| <= MaxLength(p)
    ensures ApplyMask(ApplyMask(value, Some(p)), Some(p)) == ApplyMask(value, Some(p))
  {
    var once := ApplyMask(value, Some(p));
    RemoveMaskUndoesApplyMask(value, p);
    if once == [] {
    } else if value == [] {
    }
  }

  /** Past `maxLength` it is not: twelve phone digits are cut to eleven bare
      digits, which a second pass then formats. */
  lemma ApplyMaskNotIdempotentWhenTruncating(value: string)
    requires |RemoveMask(value)| == 12
    ensures ApplyMask(ApplyMask(value, Some(PhoneMask)), Some(PhoneMask)) != ApplyMask(value, Some(PhoneMask))
  {
    var once := ApplyMask(value, Some(PhoneMask));
    ApplyMaskTruncates(value, PhoneMask);
    DigitsOnlyIdentity(once);
    PhoneFormatting(once);
    assert IsDigit(once[0]);
  }

  /** In general, past `maxLength` masking is never idempotent: the cut leaves
      exactly `maxLength` bare digits, which every pattern then formats. */
  lemma ApplyMaskNotIdempotentPastMaxLength(value: string, p: MaskPattern)
    requires |RemoveMask(value)| > MaxLength(p)
    ensures ApplyMask(ApplyMask(value, Some(p)), Some(p)) != ApplyMask(value, Some(p))
  {
    var once := ApplyMask(value, Some(p));
    ApplyMaskTruncates(value, p);
    DigitsOnlyIdentity(once);
    assert |once| == MaxLength(p);
    match p
    case PhoneMask =>
      PhoneFormatting(once);
      assert IsDigit(once[0]);
    case CpfMask =>
      CpfFormatting(once);
      assert IsDigit(once[3]);
    case CnpjMask =>
      CnpjFormatting(once);
      assert IsDigit(once[2]);
    case DateMask =>
      DateFormatting(once);
      assert IsDigit(once[2]);
  }

  /** More digits than `maxLength`: the first `maxLength` of them, with no separators. */
  lemma ApplyMaskTruncates(value: string, p: MaskPattern)
    requires |RemoveMask(value)| > MaxLength(p)
    ensures ApplyMask(value, Some(p)) == RemoveMask(value)[..MaxLength(p)]
    ensures AllDigits(ApplyMask(value, Some(p)))
  {
  }

  /** Too few digits for the pattern: the digits, unformatted. */
  lemma ApplyMaskShortInput(value: string, p: MaskPattern)
    requires |RemoveMask(value)| < (if p == PhoneMask then 10 else MaxLength(p))
    ensures ApplyMask(value, Some(p)) == RemoveMask(value)
  {
  }

  /** Ten phone digits become `(DD) DDDD-DDDD`, eleven become `(DD) DDDDD-DDDD`. */
  lemma PhoneFormatting(value: string)
    requires |RemoveMask(value)| == 10 || |RemoveMask(value)| == 11
    ensures var c := RemoveMask(value); var m := |c| - 4;
      ApplyMask(value, Some(PhoneMask)) == "(" + c[..2] + ") " + c[2..m] + "-" + c[m..]
  {
    var c := RemoveMask(value);
    var m := |c| - 4;
    assert c[2..][..m - 2] == c[2..m] && c[2..][m - 2..][..4] == c[m..];
    assert c[2..][m - 2..][4..] == [];
  }

  /** Eleven digits become `DDD.DDD.DDD-DD`. */
  lemma CpfFormatting(value: string)
    requires |RemoveMask(value)| == 11
    ensures var c := RemoveMask(value);
      ApplyMask(value, Some(CpfMask)) == c[..3] + "." + c[3..6] + "." + c[6..9] + "-" + c[9..]
  {
    var c := RemoveMask(value);
    assert c[3..][..3] == c[3..6] && c[3..][3..][..3] == c[6..9] && c[3..][3..][3..][..2] == c[9..];
    assert c[3..][3..][3..][2..] == [];
  }

  /** When the pattern matches, `applyMask` is the formatted digits. */
  lemma ApplyMaskFormats(value: string, p: MaskPattern)
    requires |RemoveMask(value)| <= MaxLength(p) && GroupLengths(p, |RemoveMask(value)|).Some?
    ensures ApplyMask(value, Some(p))
      == Format(RemoveMask(value), GroupLengths(p, |RemoveMask(value)|).value, Separators(p))
  {
    assert RemoveMask([]) == [];
  }

  /** Fourteen digits become `DD.DDD.DDD/DDDD-DD`. */
  lemma CnpjFormatting(value: string)
    requires |RemoveMask(value)| == 14
    ensures var c := RemoveMask(value);
      ApplyMask(value, Some(CnpjMask))
        == c[..2] + "." + c[2..5] + "." + c[5..8] + "/" + c[8..12] + "-" + c[12..]
  {
    var c := RemoveMask(value);
    ApplyMaskFormats(value, CnpjMask);
    var r1 := c[2..];
    var r2 := r1[3..];
    var r3 := r2[3..];
    var r4 := r3[4..];
    assert r1[..3] == c[2..5];
    assert r2 == c[5..] && r2[..3] == c[5..8];
    assert r3 == c[8..] && r3[..4] == c[8..12];
    assert r4 == c[12..] && r4[..2] == c[12..];
    assert r4[2..] == [];
    var f4 := Format(r4, [2], ["-", ""]);
    assert f4 == "-" + r4[..2];
    var f3 := Format(r3, [4, 2], ["/", "-", ""]);
    assert f3 == "/" + r3[..4] + f4;
    var f2 := Format(r2, [3, 4, 2], [".", "/", "-", ""]);
    assert f2 == "." + r2[..3] + f3;
    var f1 := Format(r1, [3, 3, 4, 2], [".", ".", "/", "-", ""]);
    assert f1 == "." + r1[..3] + f2;
    assert Format(c, [2, 3, 3, 4, 2], Separators(CnpjMask)) == c[..2] + f1;
  }

  /** Eight digits become `DD/DD/DDDD`. */
  lemma DateFormatting(value: string)
    requires |RemoveMask(value)| == 8
    ensures var c := RemoveMask(value);
      ApplyMask(value, Some(DateMask)) == c[..2] + "/" + c[2..4] + "/" + c[4..]
  {
    var c := RemoveMask(value);
    assert c[2..][..2] == c[2..4] && c[2..][2..][..4] == c[4..];
    assert c[2..][2..][4..] == [];
  }

  /** Example: `"11999998888"` is shown as `"(11) 99999-8888"`. */
  lemma PhoneExample(value: string)
    requires value == "11999998888"
    ensures ApplyMask(value, Some(PhoneMask)) == "(11) 99999-8888"
  {
    assert AllDigits(value);
    DigitsOnlyIdentity(value);
    PhoneFormatting(value);
  }
}
