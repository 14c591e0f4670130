/** strconv.Itoa on the naturals, and its inverse. */
module Decimal {

  const DIGITS := "0123456789"

  predicate IsDigit(c: char) {
    '0' <= c <= '9'
  }

  predicate AllDigits(s: string) {
    forall c :: c in s ==> IsDigit(c)
  }

  function Itoa(n: nat): (s: string)
    ensures s != "" && AllDigits(s)
  {
    if n < 10 then [DIGITS[n]] else Itoa(n / 10) + [DIGITS[n % 10]]
  }

  function DigitValue(c: char): (v: nat)
    requires IsDigit(c)
    ensures v < 10 && "0123456789"[v] == c
  {
    c as int - '0' as int
  }

  function Value(s: string): nat
    requires AllDigits(s)
  {
    if s == "" then 0 else 10 * Value(s[..|s| - 1]) + DigitValue(s[|s| - 1])
  }

  lemma {:induction false} ValueOfItoa(n: nat)
    ensures Value(Itoa(n)) == n
  {
    if n < 10 {
      assert [DIGITS[n]][..0] == "";
    } else {
      var s := Itoa(n);
      assert s[..|s| - 1] == Itoa(n / 10);
      ValueOfItoa(n / 10);
    }
  }

  lemma ItoaInjective(m: nat, n: nat)
    requires Itoa(m) == Itoa(n)
    ensures m == n
  {
    ValueOfItoa(m);
    ValueOfItoa(n);
  }

  function PowerOfTen(d: nat): nat {
    if d == 0 then 1 else 10 * PowerOfTen(d - 1)
  }

  /** d digits are enough for a number below the d-th power of ten. */
  lemma {:induction false} ItoaLength(n: nat, d: nat)
    requires d >= 1 && n < PowerOfTen(d)
    ensures |Itoa(n)| <= d
  {
    if n >= 10 {
      assert d >= 2 by { assert PowerOfTen(1) == 10; }
      ItoaLength(n / 10, d - 1);
    }
  }

  /** Digits count for more the further left they stand. */
  lemma {:induction false} ValueAppend(a: string, b: string)
    requires AllDigits(a) && AllDigits(b)
    ensures AllDigits(a + b) && Value(a + b) == Value(a) * PowerOfTen(|b|) + Value(b)
    decreases |b|
  {
    if b == "" {
      assert a + b == a;
    } else {
      var n := |b| - 1;
      assert b[..n] + [b[n]] == b;
      ValueAppend(a, b[..n]);
      ValueAppendOne(a, b[..n], b[n]);
    }
  }

  lemma ValueAppendOne(a: string, b: string, c: char)
    requires AllDigits(a) && AllDigits(b) && IsDigit(c)
    requires AllDigits(a + b) && Value(a + b) == Value(a) * PowerOfTen(|b|) + Value(b)
    ensures AllDigits(a + (b + [c])) && Value(a + (b + [c])) == Value(a) * PowerOfTen(|b| + 1) + Value(b + [c])
  {
    ValueSnoc(a + b, c);
    ValueSnoc(b, c);
    assert a + b + [c] == a + (b + [c]);
    Shifted(Value(a), PowerOfTen(|b|), Value(b), DigitValue(c));
  }

  lemma ValueSnoc(s: string, c: char)
    requires AllDigits(s) && IsDigit(c)
    ensures AllDigits(s + [c]) && Value(s + [c]) == 10 * Value(s) + DigitValue(c)
  {
    assert (s + [c])[..|s|] == s;
  }

  lemma Shifted(k: nat, p: nat, v: nat, d: nat)
    ensures 10 * (k * p + v) + d == k * (10 * p) + (10 * v + d)
  {
  }
}
