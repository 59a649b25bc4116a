/** Decimal numbers as text: Go's `strconv.Itoa` and `strconv.Atoi`. */
module Decimals {

  const MAX_INT64 := 0x7FFF_FFFF_FFFF_FFFF
  const MIN_INT64 := -0x8000_0000_0000_0000

  predicate IsDigit(c: char) { '0' <= c <= '9' }

  predicate AllDigits(s: string) { forall i :: 0 <= i < |s| ==> IsDigit(s[i]) }

  function DigitOf(d: nat): (c: char)
    requires d < 10
    ensures IsDigit(c) && c as int - '0' as int == d
  {
    ('0' as int + d) as char
  }

  function Digits(n: nat): (s: string)
    ensures |s| > 0 && AllDigits(s)
  {
    if n < 10 then [DigitOf(n)] else Digits(n / 10) + [DigitOf(n % 10)]
  }

  function Itoa(n: int): (s: string)
    ensures |s| > 0
  {
    if n < 0 then "-" + Digits(-n) else Digits(n)
  }

  function ParseDigits(s: string): (n: int)
    requires AllDigits(s)
    ensures n >= 0
  {
    if s == [] then 0 else 10 * ParseDigits(s[..|s| - 1]) + (s[|s| - 1] as int - '0' as int)
  }

  /** The number and whether there was no error; out of range, the nearest number comes with the error. */
  function Atoi(s: string): (r: (int, bool))
    ensures MIN_INT64 <= r.0 <= MAX_INT64
  {
    var signed := s != [] && (s[0] == '-' || s[0] == '+');
    var digits := if signed then s[1..] else s;
    if digits == [] || !AllDigits(digits) then (0, false)
    else
      var n := if signed && s[0] == '-' then -ParseDigits(digits) else ParseDigits(digits);
      if n > MAX_INT64 then (MAX_INT64, false)
      else if n < MIN_INT64 then (MIN_INT64, false)
      else (n, true)
  }

  lemma {:induction false} ParseOfDigits(n: nat)
    ensures ParseDigits(Digits(n)) == n
  {
    var s := Digits(n);
    if n < 10 {
      assert s[..|s| - 1] == [];
    } else {
      ParseOfDigits(n / 10);
      assert s[..|s| - 1] == Digits(n / 10);
    }
  }

  /** A number is printed as its tens, then its last digit. */
  lemma TensAndUnits(n: int, d: nat)
    requires n >= 0 && d < 10
    ensures Itoa(d) == [('0' as int + d) as char]
    ensures n > 0 ==> Itoa(10 * n + d) == Itoa(n) + [('0' as int + d) as char]
    ensures n > 0 ==> Itoa(-n) == "-" + Itoa(n)
  {
    assert (10 * n + d) / 10 == n && (10 * n + d) % 10 == d;
  }

  /** Digits that make too large a number are an error that comes with the largest, or with a minus sign the smallest. */
  lemma AtoiOutOfRange(s: string)
    requires s != "" && AllDigits(s)
    ensures Atoi(s) == if ParseDigits(s) <= 0x7FFF_FFFF_FFFF_FFFF then (ParseDigits(s), true) else (0x7FFF_FFFF_FFFF_FFFF, false)
    ensures ParseDigits(s) > 0x8000_0000_0000_0000 ==> Atoi("-" + s) == (-0x8000_0000_0000_0000, false)
  {
    assert IsDigit(s[0]) && ("-" + s)[1..] == s;
  }

  /** What is no sign and digits is an error that comes with zero. */
  lemma AtoiOfNoNumber(s: string)
    requires s == "" || s == "-" || s == "+" || exists i :: 0 < i < |s| && !IsDigit(s[i])
    ensures Atoi(s) == (0, false)
  {
    if s != "" && s != "-" && s != "+" {
      var i :| 0 < i < |s| && !IsDigit(s[i]);
      assert s[1..][i - 1] == s[i];
    }
  }

  lemma AtoiOfItoa(n: int)
    requires MIN_INT64 <= n <= MAX_INT64
    ensures Atoi(Itoa(n)) == (n, true)
  {
    if n < 0 {
      ParseOfDigits(-n);
      assert Itoa(n)[1..] == Digits(-n);
    } else {
      ParseOfDigits(n);
      assert IsDigit(Itoa(n)[0]);
    }
  }

  lemma ItoaIsInjective(m: int, n: int)
    requires Itoa(m) == Itoa(n)
    ensures m == n
  {
    hide Digits;
    var a, b := if m < 0 then -m else m, if n < 0 then -n else n;
    ParseOfDigits(a);
    ParseOfDigits(b);
    assert IsDigit(Digits(a)[0]) && IsDigit(Digits(b)[0]);
    if m < 0 || n < 0 {
      assert Itoa(m)[1..] == Itoa(n)[1..];
    }
  }

  /** Larger numbers have no fewer digits. */
  lemma {:induction false} DigitsGrow(m: nat, n: nat)
    requires m <= n
    ensures |Digits(m)| <= |Digits(n)|
  {
    if n < 10 || m < 10 {
    } else {
      DigitsGrow(m / 10, n / 10);
    }
  }
}
