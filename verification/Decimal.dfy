/** Decimal text of integers, as fmt's %d writes it and strconv.Atoi reads it. */
module Decimal {
  import GoInt

  predicate IsDigit(c: char) {
    '0' <= c <= '9'
  }

  predicate AllDigits(s: string) {
    forall i :: 0 <= i < |s| ==> IsDigit(s[i])
  }

  function DigitValue(c: char): nat
    requires IsDigit(c)
  {
    (c - '0') as nat
  }

  function DigitChar(d: nat): (c: char)
    requires d < 10
    ensures IsDigit(c) && DigitValue(c) == d
  {
    '0' + d as char
  }

  function Digits(n: nat): (s: string)
    ensures s != [] && AllDigits(s)
  {
    if n < 10 then [DigitChar(n)] else Digits(n / 10) + [DigitChar(n % 10)]
  }

  function Value(s: string): nat
    requires AllDigits(s)
  {
    if s == [] then 0 else 10 * Value(s[..|s| - 1]) + DigitValue(s[|s| - 1])
  }

  function Format(n: int): string {
    if n < 0 then "-" + Digits(-n) else Digits(n)
  }

  function Clamp(v: int): GoInt.Int {
    if v > GoInt.MAX then GoInt.MAX else if v < GoInt.MIN then GoInt.MIN else v
  }

  /**
   * strconv.Atoi: the number and whether there was no error. Bad syntax gives 0 with an error,
   * a number outside `int` gives the nearest `int` with an error.
   */
  function Atoi(s: string): (GoInt.Int, bool) {
    var signed := s != [] && (s[0] == '-' || s[0] == '+');
    var body := if signed then s[1..] else s;
    if body == [] || !AllDigits(body) then (0, false) else
    var v: int := if signed && s[0] == '-' then 0 - Value(body) as int else Value(body);
    (Clamp(v), Clamp(v) == v)
  }

  lemma {:induction false} DigitsRoundTrip(n: nat)
    ensures Value(Digits(n)) == n
  {
    if n < 10 {
      assert Digits(n)[..0] == [];
    } else {
      DigitsRoundTrip(n / 10);
      var s := Digits(n);
      assert s[..|s| - 1] == Digits(n / 10);
    }
  }

  /** Decimal notation: the last digit, preceded by the notation of the rest. */
  lemma DigitsAreDecimal(n: nat, d: nat)
    requires d < 10
    ensures n > 0 ==> Digits(10 * n + d) == Digits(n) + ["0123456789"[d]]
    ensures Digits(d) == ["0123456789"[d]]
  {
    assert (10 * n + d) / 10 == n && (10 * n + d) % 10 == d;
  }

  lemma AtoiSigned(n: nat)
    requires n <= -GoInt.MIN
    ensures Atoi("-" + Digits(n)) == (-(n as int), true)
  {
    DigitsRoundTrip(n);
    var s := "-" + Digits(n);
    assert s[1..] == Digits(n) && s[0] == '-';
  }

  lemma AtoiUnsigned(n: nat)
    requires n <= GoInt.MAX
    ensures Atoi(Digits(n)) == (n, true)
  {
    DigitsRoundTrip(n);
    assert IsDigit(Digits(n)[0]);
  }

  /** Every `int` survives being formatted and parsed. */
  lemma AtoiFormat(n: GoInt.Int)
    ensures Atoi(Format(n)) == (n, true)
  {
    if n < 0 {
      AtoiSigned(0 - n as int);
    } else {
      AtoiUnsigned(n);
    }
  }
}
