/** Decimal texts: printing, the value of a digit string, and the parser of the front end. */
module Numbers {

  const W64: int := 0x1_0000_0000_0000_0000

  /** What a signed 64-bit variable holds after `x` is stored in it. */
  function Wrap64(x: int): int {
    (x + 0x8000_0000_0000_0000) % 0x1_0000_0000_0000_0000 - 0x8000_0000_0000_0000
  }

  /** What a 32-bit unsigned field holds after `x` is stored in it. */
  function Low32(x: int): (r: int)
    ensures 0 <= r < 0x1_0000_0000
  {
    x % 0x1_0000_0000
  }

  predicate IsDigit(c: char) { '0' <= c <= '9' }

  predicate AllDigits(s: string) { forall i :: 0 <= i < |s| ==> IsDigit(s[i]) }

  function DigitChar(d: nat): (c: char)
    requires d < 10
    ensures IsDigit(c) && c as int == '0' as int + d
  {
    '0' + d as char
  }

  function DigitValue(c: char): (d: nat)
    requires IsDigit(c)
    ensures d < 10 && DigitChar(d) == c
  {
    c as int - '0' as int
  }

  function Pow10(n: nat): (p: nat)
    ensures p > 0
  {
    if n == 0 then 1 else 10 * Pow10(n - 1)
  }

  /** The value of a digit string, read from left to right. */
  function DecimalValue(s: string): nat
    requires AllDigits(s)
  {
    if s == "" then 0 else 10 * DecimalValue(s[..|s| - 1]) + DigitValue(s[|s| - 1])
  }

  /** The canonical decimal text of a number. */
  function PrintNat(n: nat): (s: string)
    ensures s != "" && AllDigits(s)
  {
    if n < 10 then [DigitChar(n)] else PrintNat(n / 10) + [DigitChar(n % 10)]
  }

  function PrintInt(x: int): string {
    if x < 0 then "-" + PrintNat(-x) else PrintNat(x)
  }

  lemma {:induction false} PrintedValue(n: nat)
    ensures DecimalValue(PrintNat(n)) == n
  {
    var s := PrintNat(n);
    if n < 10 {
      assert s[..0] == "";
      assert DecimalValue(s[..|s| - 1]) == 0;
    } else {
      PrintedValue(n / 10);
      assert s[..|s| - 1] == PrintNat(n / 10);
    }
  }

  /** Numbers are printed in decimal, most significant digit first. */
  lemma PrintsDecimal()
    ensures PrintNat(0) == "0" && PrintNat(4096) == "4096" && PrintInt(-5) == "-5"
    ensures AllDigits("120") && DecimalValue("120") == 120 && DecimalValue("") == 0
  {
    assert PrintNat(4) == "4" && PrintNat(40) == "40" && PrintNat(409) == "409";
    assert "120"[..2] == "12" && "12"[..1] == "1" && "1"[..0] == "";
  }

  lemma {:induction false} PrintedLength(n: nat, k: nat)
    requires n < Pow10(k) && k > 0
    ensures |PrintNat(n)| <= k
  {
    if n >= 10 {
      PrintedLength(n / 10, k - 1);
    }
  }

  lemma {:induction false} DecimalValueBounded(s: string)
    requires AllDigits(s)
    ensures DecimalValue(s) < Pow10(|s|)
  {
    if s != "" {
      DecimalValueBounded(s[..|s| - 1]);
    }
  }

  lemma TenTimes(p: nat, d: nat, r: nat)
    ensures 10 * (p * d + r) == (10 * p) * d + 10 * r
  {
  }

  /** The leading digit weighs as much as the power of ten of what follows it. */
  lemma {:induction false} LeadingDigit(c: char, s: string)
    requires IsDigit(c) && AllDigits(s)
    ensures DecimalValue([c] + s) == Pow10(|s|) * DigitValue(c) + DecimalValue(s)
  {
    var whole := [c] + s;
    if s == "" {
      assert whole[..0] == "";
      assert DecimalValue(whole[..|whole| - 1]) == 0;
    } else {
      var init := s[..|s| - 1];
      assert whole[..|whole| - 1] == [c] + init;
      LeadingDigit(c, init);
      TenTimes(Pow10(|s| - 1), DigitValue(c), DecimalValue(init));
    }
  }

  lemma WrapShift(x: int, k: int)
    ensures Wrap64(x + k * W64) == Wrap64(x)
  {
  }

  lemma WrapIsShift(x: int) returns (k: int)
    ensures Wrap64(x) == x + k * W64
  {
    k := -((x + 0x8000_0000_0000_0000) / 0x1_0000_0000_0000_0000);
  }

  lemma WrapOfSmall(x: int)
    requires -0x8000_0000_0000_0000 <= x < 0x8000_0000_0000_0000
    ensures Wrap64(x) == x
  {
  }

  lemma Low32OfSmall(x: int)
    requires 0 <= x < 0x1_0000_0000
    ensures Low32(x) == x
  {
  }

  lemma Low32Shift(x: int, k: int)
    ensures Low32(x + k * 0x1_0000_0000) == Low32(x)
  {
  }

  /** Reading into 64 bits first does not change the low 32 bits. */
  lemma Low32OfWrap(x: int)
    ensures Low32(Wrap64(x)) == Low32(x)
  {
    var k := WrapIsShift(x);
    Low32Shift(x, k * 0x1_0000_0000);
  }

  /** Wrapping before a multiplication or an addition changes nothing once the result wraps. */
  lemma WrapTimes(x: int, d: int)
    ensures Wrap64(Wrap64(x) * d) == Wrap64(x * d)
  {
    var k := WrapIsShift(x);
    assert (x + k * W64) * d == x * d + (k * d) * W64;
    WrapShift(x * d, k * d);
  }

  lemma WrapPlus(x: int, y: int)
    ensures Wrap64(Wrap64(x) + Wrap64(y)) == Wrap64(x + y)
  {
    var k := WrapIsShift(x);
    var l := WrapIsShift(y);
    assert x + k * W64 + (y + l * W64) == x + y + (k + l) * W64;
    WrapShift(x + y, k + l);
  }

  lemma {:induction false} SmallPowers(n: nat)
    requires n <= 18
    ensures Pow10(n) <= 1_000_000_000_000_000_000 < 0x8000_0000_0000_0000
    decreases 18 - n
  {
    if n == 18 {
      assert Pow10(6) == 1_000_000;
      assert Pow10(12) == 1_000_000_000_000 by {
        assert Pow10(9) == 1_000_000_000;
      }
      assert Pow10(15) == 1_000_000_000_000_000;
    } else {
      SmallPowers(n + 1);
    }
  }

  lemma WrapTimesPlus(v: int, p: int, d: int, factor: int, result: int, sum: int)
    requires factor == Wrap64(p) && result == Wrap64(v) && sum == p * d + v
    ensures Wrap64(result + Wrap64(factor * d)) == Wrap64(sum)
  {
    WrapTimes(p, d);
    WrapPlus(v, p * d);
  }

  /** One round of the loop: a digit is put in front of a suffix already added up. */
  lemma AccumulateValue(c: char, s: string, factor: int, result: int)
    requires IsDigit(c) && AllDigits(s)
    requires factor == Wrap64(Pow10(|s|)) && result == Wrap64(DecimalValue(s))
    ensures Wrap64(result + Wrap64(factor * DigitValue(c))) == Wrap64(DecimalValue([c] + s))
  {
    LeadingDigit(c, s);
    WrapTimesPlus(DecimalValue(s), Pow10(|s|), DigitValue(c), factor, result, DecimalValue([c] + s));
  }

  lemma AccumulateFactor(n: nat)
    ensures Wrap64(Wrap64(Pow10(n)) * 10) == Wrap64(Pow10(n + 1))
  {
    WrapTimes(Pow10(n), 10);
  }

  /** Accepts exactly the strings of digits. The digits are added up from the right in 64-bit
      variables, and the outcome is the left-to-right value reduced to 64 bits; up to
      18 digits no variable leaves its range. */
  method StringToNumber(s: string) returns (ok: bool, value: int)
    ensures ok <==> AllDigits(s)
    ensures !ok ==> value == 0
    ensures ok ==> value == Wrap64(DecimalValue(s))
    ensures ok && |s| <= 18 ==> value == DecimalValue(s)
  {
    var factor, result := 1, 0;
    var i := |s| - 1;
    while i >= 0
      invariant -1 <= i < |s|
      invariant AllDigits(s[i + 1..])
      invariant factor == Wrap64(Pow10(|s| - 1 - i))
      invariant result == Wrap64(DecimalValue(s[i + 1..]))
    {
      if !IsDigit(s[i]) {
        return false, 0;
      }
      AccumulateValue(s[i], s[i + 1..], factor, result);
      AccumulateFactor(|s| - 1 - i);
      assert s[i..] == [s[i]] + s[i + 1..];
      result := Wrap64(result + Wrap64(factor * DigitValue(s[i])));
      factor := Wrap64(factor * 10);
      i := i - 1;
    }
    assert s[i + 1..] == s;
    if |s| <= 18 {
      NoOverflow(s, 0);
      assert s[0..] == s;
    }
    return true, result;
  }

  /** Up to 18 digits, neither variable of the loop ever leaves the signed 64-bit range. */
  lemma NoOverflow(s: string, i: nat)
    requires AllDigits(s) && |s| <= 18 && i <= |s|
    ensures Wrap64(Pow10(|s| - i)) == Pow10(|s| - i)
    ensures Wrap64(DecimalValue(s[i..])) == DecimalValue(s[i..])
  {
    SmallPowers(|s| - i);
    DecimalValueBounded(s[i..]);
    WrapOfSmall(Pow10(|s| - i));
    WrapOfSmall(DecimalValue(s[i..]));
  }

  /** Parsing undoes printing for every number below 10^18. */
  lemma PrintedIsParsed(n: nat)
    requires n < Pow10(18)
    ensures AllDigits(PrintNat(n)) && |PrintNat(n)| <= 18 && Wrap64(DecimalValue(PrintNat(n))) == n
  {
    PrintedValue(n);
    PrintedLength(n, 18);
    SmallPowers(18);
    WrapOfSmall(n);
  }
}
