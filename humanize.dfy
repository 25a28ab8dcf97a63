/**
 * Human-readable byte sizes (pkg/humanize).
 *
 * `ToBytes` strips at most one upper-case unit suffix and parses the rest as a
 * number; a malformed size ends the process (`log.Fatal`), modelled as `Fatal`.
 * Digit-only numbers are modelled exactly. Any other text that could still be
 * floating-point syntax is handed to `parseFloat`, which stands for
 * `strconv.ParseFloat`, followed by truncation toward zero.
 */
module Humanize {
  import opened Wrappers

  const KiB: int := 1024
  const MiB: int := 1024 * 1024
  const GiB: int := 1024 * 1024 * 1024

  /** strconv.ParseFloat, as an oracle: None is a parse error. */
  type FloatParser = string -> Option<real>

  /** What ToBytes yields: a byte count, or the end of the run. */
  datatype Size = Bytes(n: int) | Fatal

  predicate IsDigit(c: char) { '0' <= c <= '9' }

  /** A non-empty run of decimal digits. */
  predicate IsDigits(s: string) {
    |s| > 0 && forall i :: 0 <= i < |s| ==> IsDigit(s[i])
  }

  /**
   * The characters any text accepted by strconv.ParseFloat is made of: digits,
   * signs, '.', '_', the letters of hexadecimal mantissas and exponents, and
   * those of "inf", "infinity" and "nan", in either case.
   */
  predicate InFloatAlphabet(c: char) {
    IsDigit(c) || c in "+-._" || c in "abcdefinptxyABCDEFINPTXY"
  }

  function DigitsValue(s: string): (v: nat)
    requires forall i :: 0 <= i < |s| ==> IsDigit(s[i])
    decreases |s|
  {
    if s == [] then 0
    else
      assert IsDigit(s[|s| - 1]);
      DigitsValue(s[..|s| - 1]) * 10 + (s[|s| - 1] as int - '0' as int)
  }

  /** Truncation toward zero, as Go's int() conversion of a float. */
  function Truncate(x: real): (r: int)
    ensures 0.0 <= x ==> r as real <= x < r as real + 1.0
    ensures x < 0.0 ==> r as real - 1.0 < x <= r as real
  {
    if 0.0 <= x then x.Floor else -((-x).Floor)
  }

  /** The numeric part and the multiplier: at most one suffix, tried as K, M, G. */
  function SplitSuffix(humanSize: string): (r: (string, int))
    ensures r.1 == 1 ==> r.0 == humanSize
    ensures r.1 != 1 ==> |humanSize| > 0 && r.0 == humanSize[..|humanSize| - 1]
    ensures r.1 == KiB <==> |humanSize| > 0 && humanSize[|humanSize| - 1] == 'K'
    ensures r.1 == MiB <==> |humanSize| > 0 && humanSize[|humanSize| - 1] == 'M'
    ensures r.1 == GiB <==> |humanSize| > 0 && humanSize[|humanSize| - 1] == 'G'
    ensures r.1 == 1 <==> !(|humanSize| > 0 && humanSize[|humanSize| - 1] in "KMG")
  {
    var n := |humanSize|;
    if n > 0 && humanSize[n - 1] == 'K' then (humanSize[..n - 1], KiB)
    else if n > 0 && humanSize[n - 1] == 'M' then (humanSize[..n - 1], MiB)
    else if n > 0 && humanSize[n - 1] == 'G' then (humanSize[..n - 1], GiB)
    else (humanSize, 1)
  }

  /**
   * A digit-only size reads exactly, a digit-only numeric part before a unit is
   * never fatal, and an empty numeric part, one holding a character no float
   * can hold, or one the float parser rejects is fatal.
   */
  function ToBytes(humanSize: string, parseFloat: FloatParser): (r: Size)
    ensures IsDigits(humanSize) ==> r == Bytes(DigitsValue(humanSize))
    ensures SplitSuffix(humanSize).0 == [] ==> r == Fatal
    ensures r.Fatal? ==> !IsDigits(SplitSuffix(humanSize).0)
    ensures (exists i :: 0 <= i < |SplitSuffix(humanSize).0| && !InFloatAlphabet(SplitSuffix(humanSize).0[i]))
      ==> r == Fatal
    ensures !IsDigits(SplitSuffix(humanSize).0) && parseFloat(SplitSuffix(humanSize).0).None? ==> r == Fatal
  {
    var (num, multiplier) := SplitSuffix(humanSize);
    if IsDigits(num) then Bytes(multiplier * DigitsValue(num))
    else if num == [] || exists i :: 0 <= i < |num| && !InFloatAlphabet(num[i]) then Fatal
    else match parseFloat(num)
      case None => Fatal
      case Some(value) => Bytes(Truncate(multiplier as real * value))
  }

  /** For a digit-only numeric part the value is exact, and one suffix scales it. */
  lemma DigitSizes(n: string, parseFloat: FloatParser)
    requires IsDigits(n)
    ensures ToBytes(n, parseFloat) == Bytes(DigitsValue(n))
    ensures ToBytes(n + "K", parseFloat) == Bytes(DigitsValue(n) * KiB)
    ensures ToBytes(n + "M", parseFloat) == Bytes(DigitsValue(n) * MiB)
    ensures ToBytes(n + "G", parseFloat) == Bytes(DigitsValue(n) * GiB)
  {
    assert (n + "K")[..|n|] == n && SplitSuffix(n + "K") == (n, KiB);
    assert (n + "M")[..|n|] == n && SplitSuffix(n + "M") == (n, MiB);
    assert (n + "G")[..|n|] == n && SplitSuffix(n + "G") == (n, GiB);
  }

  /** Suffixes are case-sensitive: a lower-case unit stays in the number and is fatal. */
  lemma LowerCaseUnitIsFatal(n: string, unit: char, parseFloat: FloatParser)
    requires IsDigits(n) && unit in "kmg"
    ensures ToBytes(n + [unit], parseFloat) == Fatal
  {
    var s := n + [unit];
    assert SplitSuffix(s).1 == 1;
    assert !InFloatAlphabet(s[|s| - 1]);
  }

  /** Only one suffix is stripped: a second unit letter is left in the number. */
  lemma SecondUnitIsFatal(n: string, first: char, second: char, parseFloat: FloatParser)
    requires IsDigits(n) && first in "KMG" && second in "KMG"
    ensures ToBytes(n + [first, second], parseFloat) == Fatal
  {
    var s := n + [first, second];
    assert s[..|s| - 1] == n + [first];
    var num := SplitSuffix(s).0;
    assert num == n + [first];
    assert !InFloatAlphabet(num[|num| - 1]);
  }

  /** An empty size, or a bare unit, has nothing to parse. */
  lemma EmptyNumberIsFatal(humanSize: string, parseFloat: FloatParser)
    requires humanSize in ["", "K", "M", "G"]
    ensures ToBytes(humanSize, parseFloat) == Fatal
  {
  }

  /** strconv.Itoa for non-negative values. */
  function NatToDecimal(n: nat): (s: string)
    decreases n
  {
    if n < 10 then [('0' as int + n) as char]
    else NatToDecimal(n / 10) + [('0' as int + n % 10) as char]
  }

  /**
   * strconv.Itoa: the decimal digits read back to n, after a '-' when n is
   * negative, with no leading zero except in "0" itself.
   */
  function Itoa(n: int): (s: string)
    ensures n >= 0 ==> IsDigits(s) && DigitsValue(s) == n
    ensures n >= 0 ==> (s[0] == '0' <==> s == "0")
    ensures n < 0 ==> |s| > 1 && s[0] == '-' && IsDigits(s[1..]) && DigitsValue(s[1..]) == -n
    ensures n < 0 ==> s[1] != '0'
  {
    DecimalRoundTrip(if n < 0 then -n else n);
    assert n < 0 ==> ("-" + NatToDecimal(-n))[1..] == NatToDecimal(-n);
    if n < 0 then "-" + NatToDecimal(-n) else NatToDecimal(n)
  }

  lemma {:induction false} DecimalRoundTrip(n: nat)
    ensures IsDigits(NatToDecimal(n))
    ensures DigitsValue(NatToDecimal(n)) == n
    ensures NatToDecimal(n)[0] == '0' <==> n == 0
    decreases n
  {
    var s := NatToDecimal(n);
    if n >= 10 {
      DecimalRoundTrip(n / 10);
      assert s[..|s| - 1] == NatToDecimal(n / 10);
    }
  }

  /**
   * FromBytes: a plain integer up to 1024 bytes, or the exact quotient by the
   * largest unit the count strictly exceeds (printed with "%.2f" and the unit).
   */
  datatype HumanSize = Plain(text: string) | Scaled(value: real, unit: char)

  function FromBytes(byteSize: int): (r: HumanSize)
    ensures r.Scaled? && r.unit == 'G' <==> byteSize > GiB
    ensures r.Scaled? && r.unit == 'M' <==> MiB < byteSize <= GiB
    ensures r.Scaled? && r.unit == 'K' <==> KiB < byteSize <= MiB
    ensures r.Plain? <==> byteSize <= KiB
    ensures r.Plain? ==> r.text == Itoa(byteSize)
    ensures r.Scaled? ==> 1.0 < r.value
    ensures r.Scaled? && r.unit != 'G' ==> r.value <= 1024.0
    ensures r.Scaled? ==> r.value * (match r.unit case 'G' => GiB case 'M' => MiB case _ => KiB) as real == byteSize as real
  {
    if byteSize > GiB then Scaled(byteSize as real / GiB as real, 'G')
    else if byteSize > MiB then Scaled(byteSize as real / MiB as real, 'M')
    else if byteSize > KiB then Scaled(byteSize as real / KiB as real, 'K')
    else Plain(Itoa(byteSize))
  }

  /** Up to 1024 bytes the rendering is exact and parses back to the same count. */
  lemma FromBytesRoundTrip(n: int, parseFloat: FloatParser)
    requires 0 <= n <= KiB
    ensures FromBytes(n).Plain?
    ensures ToBytes(FromBytes(n).text, parseFloat) == Bytes(n)
  {
    DecimalRoundTrip(n);
    var s := NatToDecimal(n);
    assert s[|s| - 1] !in "KMG";
  }
}
