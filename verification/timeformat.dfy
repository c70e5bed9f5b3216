/** Rendering of the clock as the scripts display and compare it.

    Both scripts turn a time in seconds into text with `toFixed(3)`. The model keeps
    time in whole milliseconds, so the rendering is exact: the whole seconds in
    decimal, a point, then three digits. `ParseMillis` reads such a string back,
    which is what `parseFloat(...).toFixed(3)` relies on when it re-renders the
    target time. */
module TimeFormat {

  /** The character of one decimal digit. */
  function DigitChar(d: nat): (c: char)
    requires d < 10
    ensures '0' <= c <= '9'
    ensures c as int - '0' as int == d
  {
    ('0' as int + d) as char
  }

  predicate IsDigit(c: char) {
    '0' <= c <= '9'
  }

  predicate AllDigits(s: string) {
    forall i :: 0 <= i < |s| ==> IsDigit(s[i])
  }

  /** Decimal text of a whole number, most significant digit first, no leading zeros. */
  function NatToDecimal(n: nat): (s: string)
    ensures 1 <= |s|
    ensures n < 10 <==> |s| == 1
    ensures AllDigits(s)
    decreases n
  {
    if n < 10 then [DigitChar(n)] else NatToDecimal(n / 10) + [DigitChar(n % 10)]
  }

  /** The value of a string of decimal digits. */
  function DecimalValue(s: string): nat
    requires AllDigits(s)
    decreases |s|
  {
    if |s| == 0 then 0
    else
      var init := s[..|s| - 1];
      assert AllDigits(init) by {
        forall i | 0 <= i < |init| ensures IsDigit(init[i]) {
          assert init[i] == s[i];
        }
      }
      10 * DecimalValue(init) + (s[|s| - 1] as int - '0' as int)
  }

  /** Reading the decimal text of `n` gives `n` back. */
  lemma {:induction false} DecimalRoundTrip(n: nat)
    ensures DecimalValue(NatToDecimal(n)) == n
    decreases n
  {
    if n >= 10 {
      var s := NatToDecimal(n);
      assert s[..|s| - 1] == NatToDecimal(n / 10);
      DecimalRoundTrip(n / 10);
    }
  }

  /** `(ms / 1000).toFixed(3)` for a whole number of milliseconds `ms`. */
  function FormatMillis(ms: nat): (s: string)
    ensures IsClockString(s)
    ensures |s| == |NatToDecimal(ms / 1000)| + 4
    ensures ms < 10000 <==> |s| == 5
    ensures 10000 <= ms < 100000 ==> |s| == 6
  {
    var whole := NatToDecimal(ms / 1000);
    var s := whole + ['.', DigitChar(ms / 100 % 10), DigitChar(ms / 10 % 10), DigitChar(ms % 10)];
    assert s[|s| - 4] == '.';
    assert forall i :: 0 <= i < |whole| ==> s[i] == whole[i];
    s
  }

  /** The shape `toFixed(3)` produces: digits, a point, exactly three digits. */
  predicate IsClockString(s: string) {
    && |s| >= 5
    && s[|s| - 4] == '.'
    && forall i :: 0 <= i < |s| && i != |s| - 4 ==> IsDigit(s[i])
  }

  /** The number of milliseconds a clock string denotes. */
  function ParseMillis(s: string): nat
    requires IsClockString(s)
  {
    var whole := s[..|s| - 4];
    var frac := s[|s| - 3..];
    assert AllDigits(whole) by {
      forall i | 0 <= i < |whole| ensures IsDigit(whole[i]) {
        assert whole[i] == s[i];
      }
    }
    assert AllDigits(frac) by {
      forall i | 0 <= i < |frac| ensures IsDigit(frac[i]) {
        assert frac[i] == s[|s| - 3 + i];
      }
    }
    1000 * DecimalValue(whole) + DecimalValue(frac)
  }

  lemma ThreeDigitValue(a: nat, b: nat, c: nat)
    requires a < 10 && b < 10 && c < 10
    ensures DecimalValue([DigitChar(a), DigitChar(b), DigitChar(c)]) == 100 * a + 10 * b + c
  {
    var s := [DigitChar(a), DigitChar(b), DigitChar(c)];
    var s2 := [DigitChar(a), DigitChar(b)];
    var s1 := [DigitChar(a)];
    assert s[..2] == s2 && s2[..1] == s1 && s1[..0] == [];
    assert DecimalValue(s1) == a;
    assert DecimalValue(s2) == 10 * a + b;
  }

  /** Rendering a clock value and reading it back gives the same number of
      milliseconds, so the rendering loses nothing. */
  lemma MillisRoundTrip(ms: nat)
    ensures ParseMillis(FormatMillis(ms)) == ms
  {
    var s := FormatMillis(ms);
    var whole := NatToDecimal(ms / 1000);
    assert s[..|s| - 4] == whole;
    assert s[|s| - 3..] == [DigitChar(ms / 100 % 10), DigitChar(ms / 10 % 10), DigitChar(ms % 10)];
    DecimalRoundTrip(ms / 1000);
    ThreeDigitValue(ms / 100 % 10, ms / 10 % 10, ms % 10);
    MillisDigits(ms);
  }

  /** A number is ten times its tens plus its last digit. */
  lemma Split10(n: nat)
    ensures n == 10 * (n / 10) + n % 10
  {
  }

  /** Each coarser reading of a clock value is the finer one without its last digit. */
  lemma DigitSplit(ms: nat)
    ensures ms / 100 == 10 * (ms / 1000) + ms / 100 % 10
    ensures ms / 10 == 10 * (ms / 100) + ms / 10 % 10
    ensures ms == 10 * (ms / 10) + ms % 10
  {
    Split10(ms / 100);
    Split10(ms / 10);
    Split10(ms);
    assert ms / 100 / 10 == ms / 1000;
    assert ms / 10 / 10 == ms / 100;
  }

  /** A clock value is its whole seconds and its three fractional digits. */
  lemma MillisDigits(ms: nat)
    ensures ms == 1000 * (ms / 1000) + 100 * (ms / 100 % 10) + 10 * (ms / 10 % 10) + ms % 10
  {
    DigitSplit(ms);
  }

  /** Two different clock values never render alike. */
  lemma FormatInjective(a: nat, b: nat)
    ensures FormatMillis(a) == FormatMillis(b) <==> a == b
  {
    if FormatMillis(a) == FormatMillis(b) {
      MillisRoundTrip(a);
      MillisRoundTrip(b);
    }
  }

  /** Below ten seconds the rendering is the five characters `D.DDD`. */
  lemma ShortForm(ms: nat)
    requires ms < 10000
    ensures FormatMillis(ms) == [DigitChar(ms / 1000), '.', DigitChar(ms / 100 % 10), DigitChar(ms / 10 % 10), DigitChar(ms % 10)]
  {
  }
}
