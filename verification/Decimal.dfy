/** Whole numbers written in decimal, as `String(n)` writes them and `Number(s)` and `::int` read them. */
module Decimal {
  predicate IsDigit(c: char) {
    '0' <= c <= '9'
  }

  predicate AllDigits(s: string) {
    forall i | 0 <= i < |s| :: IsDigit(s[i])
  }

  function ToDecimal(n: nat): string {
    if n < 10 then [('0' as int + n) as char]
    else ToDecimal(n / 10) + [('0' as int + n % 10) as char]
  }

  function FromDecimal(s: string): nat
    requires AllDigits(s)
  {
    if s == [] then 0
    else 10 * FromDecimal(s[..|s| - 1]) + (s[|s| - 1] as int - '0' as int)
  }

  /** Printing and reading back, for every number. */
  lemma {:induction false} DecimalRoundTrip(n: nat)
    ensures ToDecimal(n) != [] && AllDigits(ToDecimal(n)) && FromDecimal(ToDecimal(n)) == n
  {
    if n < 10 {
      var s := ToDecimal(n);
      assert s[..|s| - 1] == [];
    } else {
      DecimalRoundTrip(n / 10);
      var front := ToDecimal(n / 10);
      var s := ToDecimal(n);
      assert s[..|s| - 1] == front;
    }
  }

  function Power(n: nat): nat {
    if n == 0 then 1 else 10 * Power(n - 1)
  }

  /** What the digits from place `k` on are worth, the last one units, each one before it ten times the next. */
  function Worth(s: string, k: nat): nat
    requires k <= |s| && AllDigits(s)
    decreases |s| - k
  {
    if k == |s| then 0 else (s[k] as int - '0' as int) * Power(|s| - 1 - k) + Worth(s, k + 1)
  }

  lemma {:induction false} WorthOfLonger(s: string, c: char, k: nat)
    requires k <= |s| && AllDigits(s + [c]) && AllDigits(s) && IsDigit(c)
    ensures Worth(s + [c], k) == 10 * Worth(s, k) + (c as int - '0' as int)
    decreases |s| - k
  {
    if k < |s| {
      WorthOfLonger(s, c, k + 1);
      var d := s[k] as int - '0' as int;
      assert Power(|s| - k) == 10 * Power(|s| - 1 - k);
      assert d * (10 * Power(|s| - 1 - k)) == 10 * (d * Power(|s| - 1 - k));
    } else {
      assert (s + [c])[k] == c && Power(0) == 1;
    }
  }

  /** A text of digits is read by place. */
  lemma {:induction false} ReadByPlace(s: string)
    requires AllDigits(s)
    ensures FromDecimal(s) == Worth(s, 0)
  {
    if s != [] {
      var n := |s| - 1;
      ReadByPlace(s[..n]);
      WorthOfLonger(s[..n], s[n], 0);
      assert s[..n] + [s[n]] == s;
    }
  }

  /** The length of the longest run of digits at the start of `s`. */
  function DigitRun(s: string): (n: nat)
    ensures n <= |s| && AllDigits(s[..n])
    ensures n < |s| ==> !IsDigit(s[n])
  {
    if s == [] || !IsDigit(s[0]) then 0
    else
      var n := DigitRun(s[1..]);
      assert forall i | 0 < i < n + 1 :: s[i] == s[1..][..n][i - 1];
      n + 1
  }

  lemma {:induction false} DigitRunOf(digits: string, rest: string)
    requires AllDigits(digits) && (rest == [] || !IsDigit(rest[0]))
    ensures DigitRun(digits + rest) == |digits|
  {
    if digits == [] {
      assert digits + rest == rest;
    } else {
      assert (digits + rest)[1..] == digits[1..] + rest;
      DigitRunOf(digits[1..], rest);
    }
  }
}
