/**
 * Go's `strconv.Atoi` for a 64-bit `int`: an optional `+` or `-`, then one or more
 * decimal digits, and a value that fits in 64 bits; anything else is an error.
 */
module Numbers {
  import opened Wrappers

  const MinInt64: int := -0x8000_0000_0000_0000
  const MaxInt64: int := 0x7FFF_FFFF_FFFF_FFFF

  predicate IsDigit(c: char) {
    '0' <= c <= '9'
  }

  predicate AllDigits(s: string) {
    forall i :: 0 <= i < |s| ==> IsDigit(s[i])
  }

  function DigitValue(c: char): (d: nat)
    requires IsDigit(c)
    ensures d < 10
  {
    (c as int) - ('0' as int)
  }

  function DigitChar(d: nat): (c: char)
    requires d < 10
    ensures IsDigit(c) && DigitValue(c) == d
  {
    ('0' as int + d) as char
  }

  /** The value of a string of decimal digits, most significant first. */
  function DigitsValue(s: string): nat
    requires AllDigits(s)
    decreases |s|
  {
    if s == [] then 0 else DigitsValue(s[..|s| - 1]) * 10 + DigitValue(s[|s| - 1])
  }

  /** The magnitude part of a parse: what follows an optional sign. */
  function Magnitude(s: string): string {
    if |s| > 0 && (s[0] == '-' || s[0] == '+') then s[1..] else s
  }

  /** The value a well-formed spelling denotes: the magnitude's value, negated after a `-`. */
  function SignedValue(s: string): int
    requires AllDigits(Magnitude(s))
  {
    if |s| > 0 && s[0] == '-' then -(DigitsValue(Magnitude(s)) as int) else DigitsValue(Magnitude(s))
  }

  /** A parse succeeds exactly on a sign-and-digits spelling whose value fits in 64 bits, and gives that value. */
  function Atoi(s: string): (r: Option<int>)
    ensures r.Some? ==> MinInt64 <= r.value <= MaxInt64
    ensures r.Some? <==> Magnitude(s) != [] && AllDigits(Magnitude(s)) && MinInt64 <= SignedValue(s) <= MaxInt64
    ensures r.Some? ==> r.value == SignedValue(s)
  {
    var m := Magnitude(s);
    if m == [] || !AllDigits(m) then None
    else
      var v: int := if s[0] == '-' then -(DigitsValue(m) as int) else DigitsValue(m);
      if MinInt64 <= v <= MaxInt64 then Some(v) else None
  }

  /** The shortest decimal spelling of `n` (`strconv.Itoa` on a non-negative value). */
  function Digits(n: nat): (s: string)
    ensures |s| > 0 && AllDigits(s) && DigitsValue(s) == n
    decreases n
  {
    if n < 10 then [DigitChar(n)]
    else
      var t := Digits(n / 10) + [DigitChar(n % 10)];
      assert t[..|t| - 1] == Digits(n / 10);
      t
  }

  /** `strconv.Itoa`. */
  function FormatInt(n: int): string {
    if n < 0 then "-" + Digits(-n) else Digits(n)
  }

  /** Every 64-bit integer parses back from its decimal spelling. */
  lemma AtoiFormatInt(n: int)
    requires MinInt64 <= n <= MaxInt64
    ensures Atoi(FormatInt(n)) == Some(n)
  {
    if n < 0 {
      assert Magnitude("-" + Digits(-n)) == Digits(-n);
    } else {
      assert Digits(n)[0] != '-' && Digits(n)[0] != '+';
    }
  }

  /** A value beyond 64 bits is out of range even when it is spelled in digits. */
  lemma AtoiRejectsOverflow(n: int)
    requires n > MaxInt64
    ensures Atoi(Digits(n)) == None
  {
    assert Digits(n)[0] != '-';
  }

  /** A leading `+` and leading zeros are accepted: "+8" is 8, "007" is 7, and "-12" is -12. */
  lemma AtoiAcceptsSignsAndZeros()
    ensures Atoi("+8") == Some(8) && Atoi("007") == Some(7) && Atoi("-12") == Some(-12)
  {
    assert Magnitude("+8") == "8" && DigitsValue("8") == 8;
    assert "007"[..2] == "00" && "00"[..1] == "0" && DigitsValue("007") == 7;
    assert Magnitude("-12") == "12" && "12"[..1] == "1" && DigitsValue("12") == 12;
  }

  lemma AtoiRejectsWords()
    ensures Atoi("abc") == None && Atoi("") == None && Atoi("-") == None
  {
    assert !IsDigit("abc"[0]);
  }
}
