/** Decimal notation of integers, as Python's `str(int)` and `int(text)`. */
module Decimal {

  function Digit(d: nat): (c: char)
    requires d < 10
  {
    ('0' as int + d) as char
  }

  predicate IsDigit(c: char) {
    '0' <= c <= '9'
  }

  function DigitValue(c: char): nat
    requires IsDigit(c)
  {
    c as int - '0' as int
  }

  function NatText(n: nat): string {
    if n < 10 then [Digit(n)] else NatText(n / 10) + [Digit(n % 10)]
  }

  function IntText(n: int): string {
    if n < 0 then "-" + NatText(-n) else NatText(n)
  }

  predicate AllDigits(s: string) {
    forall i :: 0 <= i < |s| ==> IsDigit(s[i])
  }

  /** `[1-9][0-9]*` over the whole text. */
  predicate IsCanonical(s: string) {
    s != "" && s[0] != '0' && AllDigits(s)
  }

  function Value(s: string): nat
    requires AllDigits(s)
  {
    if s == "" then 0 else 10 * Value(s[..|s| - 1]) + DigitValue(s[|s| - 1])
  }

  function Power10(k: nat): nat {
    if k == 0 then 1 else 10 * Power10(k - 1)
  }

  lemma {:induction false} TextIsCanonical(n: nat)
    requires n > 0
    ensures IsCanonical(NatText(n)) && Value(NatText(n)) == n
  {
    if n < 10 {
      assert NatText(n)[..0] == "";
    } else {
      TextIsCanonical(n / 10);
      var s := NatText(n);
      assert s[..|s| - 1] == NatText(n / 10);
    }
  }

  lemma {:induction false} CanonicalIsText(s: string)
    requires IsCanonical(s)
    ensures Value(s) > 0 && NatText(Value(s)) == s
  {
    if |s| > 1 {
      var init := s[..|s| - 1];
      CanonicalIsText(init);
      assert Value(s) / 10 == Value(init) && Value(s) % 10 == DigitValue(s[|s| - 1]);
      assert s == init + [s[|s| - 1]];
    } else {
      assert s[..0] == "" && s == [s[0]];
    }
  }

  lemma {:induction false} ValueAtLeast(s: string)
    requires IsCanonical(s)
    ensures Value(s) >= Power10(|s| - 1)
  {
    if |s| > 1 {
      ValueAtLeast(s[..|s| - 1]);
    } else {
      CanonicalIsText(s);
    }
  }

  lemma {:induction false} PowerGrows(j: nat, k: nat)
    requires j <= k
    ensures Power10(j) <= Power10(k)
  {
    if j < k {
      PowerGrows(j, k - 1);
    }
  }

  /** Two integers with the same text are the same. */
  lemma IntTextInjective(a: int, b: int)
    requires IntText(a) == IntText(b)
    ensures a == b
  {
    if a != 0 { TextIsCanonical(if a < 0 then -a else a); }
    if b != 0 { TextIsCanonical(if b < 0 then -b else b); }
    if a < 0 && b < 0 {
      assert IntText(a)[1..] == NatText(-a) && IntText(b)[1..] == NatText(-b);
    }
  }
}
