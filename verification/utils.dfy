/**
 * The application's utility functions: zero-padded number formatting, a
 * guarded and clamped percentage, and truncation with an ellipsis.
 */
module Utils {
  import opened JsMath
  import opened Ascii

  predicate AllDigits(s: string) {
    forall k :: 0 <= k < |s| ==> IsDigit(s[k])
  }

  function DigitChar(d: nat): (c: char)
    requires d < 10
    ensures IsDigit(c)
  {
    ('0' as int + d) as char
  }

  function DigitValue(c: char): (d: nat)
    requires IsDigit(c)
    ensures d < 10
  {
    c as int - '0' as int
  }

  /** The value of a string of decimal digits. */
  function DecimalValue(s: string): nat
    requires AllDigits(s)
  {
    if s == [] then 0 else DecimalValue(s[..|s| - 1]) * 10 + DigitValue(s[|s| - 1])
  }

  /**
   * JavaScript's rendering of a non-negative integer below 10^21: its
   * decimal digits, with no leading zero except for 0 itself.
   */
  function NatToDecimal(n: nat): (r: string)
    ensures |r| >= 1 && AllDigits(r)
    ensures r[0] == '0' <==> n == 0
    ensures n < 10 <==> |r| == 1
    decreases n
  {
    if n < 10 then [DigitChar(n)] else NatToDecimal(n / 10) + [DigitChar(n % 10)]
  }

  /** Reading back the digits of `n` gives `n`. */
  lemma {:induction false} NatToDecimalValue(n: nat)
    ensures DecimalValue(NatToDecimal(n)) == n
    decreases n
  {
    if n >= 10 {
      var r := NatToDecimal(n);
      NatToDecimalValue(n / 10);
      assert r[..|r| - 1] == NatToDecimal(n / 10);
    }
  }

  /** JavaScript's `${n}` for an integer: a minus sign in front of the digits when negative. */
  function IntToString(n: int): string {
    if n < 0 then "-" + NatToDecimal(-n) else NatToDecimal(n)
  }

  /**
   * `formatNumber`: numbers below 10 get a `0` in front. A number from 0 to
   * 9 becomes `0` and its digit; from 10 on, its plain digits; a negative
   * number gets the `0` in front of its minus sign.
   */
  function FormatNumber(num: int): (r: string)
    ensures 0 <= num < 10 ==> r == ['0', DigitChar(num)]
    ensures 10 <= num ==> r == NatToDecimal(num) && r[0] != '0'
    ensures num < 0 ==> r == "0-" + NatToDecimal(-num)
  {
    if num < 10 then "0" + IntToString(num) else IntToString(num)
  }

  /**
   * For every non-negative number the formatted result has at least two
   * digits, reads back as the number, and starts with `0` exactly when the
   * number is below 10.
   */
  lemma FormatNumberReadsBack(num: nat)
    ensures var r := FormatNumber(num);
      |r| >= 2 && AllDigits(r) && DecimalValue(r) == num && (r[0] == '0' <==> num < 10)
  {
    NatToDecimalValue(num);
    if num < 10 {
      var r := FormatNumber(num);
      assert r[..1] == "0";
    }
  }

  /**
   * `calculateProgress`: `current` as a percentage of `total`, clamped to
   * [0, 100], and 0 when `total` is 0.
   */
  function CalculateProgress(current: real, total: real): (r: real)
    ensures 0.0 <= r <= 100.0
    ensures total == 0.0 ==> r == 0.0
  {
    if total == 0.0 then 0.0 else Min(100.0, Max(0.0, (current / total) * 100.0))
  }

  lemma NonNegativeFactor(a: real, b: real)
    requires b > 0.0 && a * b >= 0.0
    ensures a >= 0.0
  {
  }

  /**
   * For a positive total, progress saturates at 100 once `current` reaches
   * `total`, is 0 for a non-positive `current`, and is the exact percentage
   * in between.
   */
  lemma CalculateProgressPositiveTotal(current: real, total: real)
    requires total > 0.0
    ensures current >= total ==> CalculateProgress(current, total) == 100.0
    ensures current <= 0.0 ==> CalculateProgress(current, total) == 0.0
    ensures 0.0 <= current <= total ==> CalculateProgress(current, total) * total == current * 100.0
  {
    var ratio := current / total;
    assert ratio * total == current;
    if current >= total {
      assert (ratio - 1.0) * total == current - total;
      NonNegativeFactor(ratio - 1.0, total);
      assert ratio * 100.0 >= 100.0;
    }
    if current <= 0.0 {
      assert (-ratio) * total == -current;
      NonNegativeFactor(-ratio, total);
      assert ratio * 100.0 <= 0.0;
    }
    if 0.0 <= current <= total {
      assert (1.0 - ratio) * total == total - current;
      NonNegativeFactor(ratio, total);
      NonNegativeFactor(1.0 - ratio, total);
      assert CalculateProgress(current, total) == ratio * 100.0;
    }
  }

  /**
   * `truncateText` with a non-negative `maxLength`: text that fits comes back
   * unchanged; longer text keeps its first `maxLength` characters and gets
   * `...` after them.
   */
  function TruncateText(text: string, maxLength: nat): (r: string)
    ensures |text| <= maxLength ==> r == text
    ensures |text| > maxLength ==> |r| == maxLength + 3
    ensures |text| > maxLength ==> r[..maxLength] == text[..maxLength] && r[maxLength..] == "..."
  {
    if |text| <= maxLength then text else text[..maxLength] + "..."
  }

  /** Truncating twice to the same length is truncating once. */
  lemma TruncateTextIdempotent(text: string, maxLength: nat)
    ensures TruncateText(TruncateText(text, maxLength), maxLength) == TruncateText(text, maxLength)
  {
    var once := TruncateText(text, maxLength);
    if |text| > maxLength {
      assert once == once[..maxLength] + once[maxLength..];
    }
  }
}
