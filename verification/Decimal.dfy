/** Decimal rendering of non-negative integers. */
module Decimal {
  function Digit(d: nat): char
    requires d < 10
  {
    '0' + d as char
  }

  /** strconv.Itoa on a non-negative number. */
  function Numeral(n: nat): (s: string)
    ensures s != ""
  {
    if n < 10 then [Digit(n)] else Numeral(n / 10) + [Digit(n % 10)]
  }

  function Power10(k: nat): nat {
    if k == 0 then 1 else 10 * Power10(k - 1)
  }

  lemma {:induction false} NumeralInjective(m: nat, n: nat)
    requires Numeral(m) == Numeral(n)
    ensures m == n
  {
    var s := Numeral(m);
    assert s[|s| - 1] == Digit(m % 10) && s[|s| - 1] == Digit(n % 10);
    assert m % 10 == n % 10;
    if m >= 10 && n >= 10 {
      assert s[..|s| - 1] == Numeral(m / 10) && s[..|s| - 1] == Numeral(n / 10);
      NumeralInjective(m / 10, n / 10);
    }
  }

  /** The number a string of decimal digits stands for. */
  function Reading(s: string): int {
    if s == "" then 0 else 10 * Reading(s[..|s| - 1]) + (s[|s| - 1] as int - '0' as int)
  }

  /** A numeral is read back as its number. */
  lemma {:induction false} NumeralReads(n: nat)
    ensures Reading(Numeral(n)) == n
  {
    if n >= 10 {
      var s := Numeral(n);
      assert s[..|s| - 1] == Numeral(n / 10) && s[|s| - 1] == Digit(n % 10);
      NumeralReads(n / 10);
    } else {
      assert [Digit(n)][..0] == "";
    }
  }

  /** All digits, and no leading zero. */
  predicate IsNumeral(s: string) {
    && s != ""
    && (forall i :: 0 <= i < |s| ==> '0' <= s[i] <= '9')
    && (|s| > 1 ==> s[0] != '0')
  }

  lemma {:induction false} NumeralIs(n: nat)
    ensures IsNumeral(Numeral(n)) && (n > 0 ==> Numeral(n)[0] != '0')
  {
    if n >= 10 {
      NumeralIs(n / 10);
    }
  }

  lemma TwentyDigits()
    ensures 0x8000_0000_0000_0000 <= Power10(20)
  {
    assert Power10(5) == 100_000;
    assert Power10(10) == 10_000_000_000;
    assert Power10(15) == 1_000_000_000_000_000;
  }

  /** The digits of n, or nothing at all when n is not positive. */
  function Digits(n: int): string {
    if n <= 0 then "" else Numeral(n)
  }

  lemma DigitsRead(n: int)
    ensures var s := if n == 0 then "0" else Digits(n); if n < 0 then s == "" else IsNumeral(s) && Reading(s) == n
  {
    if n >= 0 {
      NumeralIs(n);
      NumeralReads(n);
      assert Numeral(0) == "0";
    }
  }

  lemma DigitsStep(n: nat, tail: string)
    requires n > 0
    ensures Digits(n) + tail == Digits(n / 10) + ([Digit(n % 10)] + tail)
  {
    assert Digits(n) == Digits(n / 10) + [Digit(n % 10)];
  }

  lemma PowerStep(n: nat, i: nat)
    requires 0 < n < Power10(i)
    ensures i > 0 && (n >= 10 ==> n / 10 < Power10(i - 1))
  {
  }

  /** The twenty bytes suffice for every 64-bit number; a negative one comes out empty. */
  method Itoa(n: int) returns (s: string)
    requires n < 0x8000_0000_0000_0000
    ensures s == if n == 0 then "0" else Digits(n)
    ensures n >= 0 ==> IsNumeral(s) && Reading(s) == n
    ensures n < 0 ==> s == ""
  {
    hide Digit, Digits, Numeral, Power10, Reading, IsNumeral;
    DigitsRead(n);
    if n == 0 {
      return "0";
    }
    var b := new char[20];
    var i := b.Length;
    var rest := n;
    TwentyDigits();
    ghost var tail := "";
    while rest > 0
      invariant 0 <= i <= b.Length && b[i..] == tail
      invariant rest > 0 ==> rest < Power10(i)
      invariant Digits(n) == Digits(rest) + tail
    {
      DigitsStep(rest, tail);
      PowerStep(rest, i);
      i := i - 1;
      b[i] := Digit(rest % 10);
      tail := [Digit(rest % 10)] + tail;
      rest := rest / 10;
    }
    assert Digits(rest) == "" by { NoDigits(rest); }
    s := b[i..];
  }

  lemma NoDigits(n: int)
    requires n <= 0
    ensures Digits(n) == ""
  {
  }
}
