/** Decimal printing and parsing of integers as the program uses them in chunk file
    names, proof-of-work challenges and stored times. */
module Decimal {
  import opened Util

  const MAX_INT64: int := 0x7FFF_FFFF_FFFF_FFFF
  const MIN_INT64: int := -0x8000_0000_0000_0000

  function Digit(d: nat): char
    requires d < 10
  {
    (('0' as int) + d) as char
  }

  predicate IsDigit(c: char) { '0' <= c <= '9' }

  /** The %d form of a non-negative number. */
  function Itoa(n: nat): (s: string)
    ensures s != [] && forall i :: 0 <= i < |s| ==> IsDigit(s[i])
    ensures s[0] == '0' ==> n == 0
  {
    if n < 10 then [Digit(n)] else Itoa(n / 10) + [Digit(n % 10)]
  }

  function Digits(s: string): Option<nat> {
    if s == [] then Some(0)
    else
      var last := s[|s| - 1];
      var front := Digits(s[..|s| - 1]);
      if front.None? || !IsDigit(last) then None
      else Some(10 * front.value + (last as int - '0' as int))
  }

  /** strconv.Atoi on a 64-bit platform: an optional sign, then at least one digit, in range. */
  function Atoi(s: string): Option<int> {
    var signed := s != [] && (s[0] == '+' || s[0] == '-');
    var body := if signed then s[1..] else s;
    if body == [] then None
    else
      var value := Digits(body);
      if value.None? then None
      else
        var n: int := (if signed && s[0] == '-' then -1 else 1) * value.value;
        if MIN_INT64 <= n <= MAX_INT64 then Some(n) else None
  }

  /** Parsing accepts an optional sign before digits, and nothing else. */
  lemma AtoiAccepts(s: string)
    ensures Atoi(s).Some? ==>
      var body := if s[0] == '+' || s[0] == '-' then s[1..] else s;
      && s != [] && body != [] && (forall i :: 0 <= i < |body| ==> '0' <= body[i] <= '9')
      && (s[0] == '-' ==> Atoi(s).value <= 0) && (s[0] != '-' ==> Atoi(s).value >= 0)
  {
    if s != [] { DigitsAreDigits(if s[0] == '+' || s[0] == '-' then s[1..] else s); }
  }

  lemma {:induction false} DigitsAreDigits(s: string)
    ensures Digits(s).Some? ==> forall i :: 0 <= i < |s| ==> '0' <= s[i] <= '9'
  {
    if s != [] { DigitsAreDigits(s[..|s| - 1]); }
  }

  /** A number too large for an int does not parse. */
  lemma AtoiOverflows(n: nat)
    requires n > MAX_INT64
    ensures Atoi(Itoa(n)) == None
  {
    DigitsOfItoa(n);
    assert IsDigit(Itoa(n)[0]);
  }

  lemma {:induction false} DigitsOfItoa(n: nat)
    ensures Digits(Itoa(n)) == Some(n)
  {
    if n < 10 {
      assert Itoa(n)[..0] == [];
    } else {
      DigitsOfItoa(n / 10);
      assert Itoa(n)[..|Itoa(n)| - 1] == Itoa(n / 10);
    }
  }

  /** Parsing undoes printing for every number an int can hold. */
  lemma AtoiOfItoa(n: nat)
    requires n <= MAX_INT64
    ensures Atoi(Itoa(n)) == Some(n)
  {
    DigitsOfItoa(n);
    assert IsDigit(Itoa(n)[0]);
  }
}
