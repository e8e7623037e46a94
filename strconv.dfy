/**
 * Go's `strconv.Itoa` and `strconv.Atoi` on a 64-bit platform, for decimal
 * integers with an optional sign.
 */
module Strconv {
  import opened Wrappers

  const MAX_INT64: int := 0x7FFF_FFFF_FFFF_FFFF
  const MIN_INT64: int := -0x8000_0000_0000_0000

  predicate IsDigit(c: char) {
    '0' <= c <= '9'
  }

  predicate AllDigits(s: string) {
    forall i :: 0 <= i < |s| ==> IsDigit(s[i])
  }

  function DigitChar(d: nat): (c: char)
    requires d < 10
    ensures IsDigit(c)
  {
    ('0' as int + d) as char
  }

  function DigitValue(c: char): nat
    requires IsDigit(c)
  {
    c as int - '0' as int
  }

  /** The value of a string of decimal digits, most significant first. */
  function DigitsValue(s: string): nat
    requires AllDigits(s)
  {
    if s == [] then 0 else 10 * DigitsValue(s[..|s| - 1]) + DigitValue(s[|s| - 1])
  }

  /** `strconv.Itoa` for a non-negative value: its shortest decimal spelling. */
  function Itoa(n: nat): (s: string)
    ensures s != [] && AllDigits(s)
    ensures n < 10 <==> |s| == 1
  {
    if n < 10 then [DigitChar(n)] else Itoa(n / 10) + [DigitChar(n % 10)]
  }

  /**
   * `strconv.Atoi`: an optional `+` or `-`, then at least one decimal digit,
   * and a value that fits in a Go `int` (64 bits); anything else is an error.
   */
  function Atoi(s: string): (r: Option<int>)
    ensures r.Some? ==> MIN_INT64 <= r.value <= MAX_INT64
    ensures s == [] ==> r.None?
  {
    if s == [] then None
    else
      var digits := if s[0] == '-' || s[0] == '+' then s[1..] else s;
      if digits == [] || !AllDigits(digits) then None
      else
        var v: int := if s[0] == '-' then -(DigitsValue(digits) as int) else DigitsValue(digits);
        if MIN_INT64 <= v <= MAX_INT64 then Some(v) else None
  }

  /** Position `i` holds something other than a digit, and it is not a leading sign. */
  predicate NonDigitAt(s: string, i: nat) {
    i < |s| && !IsDigit(s[i]) && !(i == 0 && (s[0] == '+' || s[0] == '-'))
  }

  /** A character that is neither a digit nor a leading sign makes `Atoi` fail. */
  lemma AtoiRejectsNonDigit(s: string, i: nat)
    requires NonDigitAt(s, i)
    ensures Atoi(s).None?
  {
    if s[0] == '-' || s[0] == '+' {
      assert s[1..][i - 1] == s[i];
    }
  }

  /** A sign with no digits after it makes `Atoi` fail. */
  lemma AtoiRejectsLoneSign(s: string)
    requires s == "+" || s == "-"
    ensures Atoi(s).None?
  {
    assert s[1..] == [];
  }

  /** Reading back the digits `Itoa` writes gives the number. */
  lemma {:induction false} DigitsValueItoa(n: nat)
    ensures DigitsValue(Itoa(n)) == n
  {
    if n >= 10 {
      DigitsValueItoa(n / 10);
      var prefix := Itoa(n / 10);
      var s := prefix + [DigitChar(n % 10)];
      assert s[..|s| - 1] == prefix;
    }
  }

  /** `Itoa` never spells two numbers the same way. */
  lemma ItoaInjective(m: nat, n: nat)
    requires Itoa(m) == Itoa(n)
    ensures m == n
  {
    DigitsValueItoa(m);
    DigitsValueItoa(n);
  }

  /** `Atoi(Itoa(n)) == n` for every non-negative `int`. */
  lemma AtoiItoa(n: nat)
    requires n <= MAX_INT64
    ensures Atoi(Itoa(n)) == Some(n)
  {
    DigitsValueItoa(n);
    assert IsDigit(Itoa(n)[0]);
  }

  /** A minus sign before the digits of `n` reads back as `-n`, down to the smallest `int`. */
  lemma AtoiNegatedItoa(n: nat)
    requires n <= -MIN_INT64
    ensures Atoi("-" + Itoa(n)) == Some(-(n as int))
  {
    DigitsValueItoa(n);
    var s := "-" + Itoa(n);
    assert s[1..] == Itoa(n);
  }

  /** Decimal values beyond the 64-bit range are rejected, not wrapped. */
  lemma AtoiRejectsOverflow(n: nat)
    requires n > MAX_INT64
    ensures Atoi(Itoa(n)).None?
  {
    DigitsValueItoa(n);
    assert IsDigit(Itoa(n)[0]);
  }
}
