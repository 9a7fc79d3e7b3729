/** Decimal numbers as text: printed digit by digit, and read by the worth of each place. */
module Decimals {
  import opened Wrappers

  predicate IsDigit(c: char) {
    '0' <= c <= '9'
  }

  predicate AllDigits(s: string) {
    forall i :: 0 <= i < |s| ==> IsDigit(s[i])
  }

  // ---------------------------------------------------------------- printing

  /** strconv.FormatInt with base 10, for numbers that are not negative. */
  function Dec(n: nat): string {
    (if n < 10 then "" else Dec(n / 10)) + [(n % 10 + '0' as int) as char]
  }

  function FormatInt(n: int): string {
    if n < 0 then "-" + Dec(-n) else Dec(n)
  }

  // ---------------------------------------------------------------- reading

  function PowerOfTen(k: nat): nat {
    if k == 0 then 1 else 10 * PowerOfTen(k - 1)
  }

  /** The sum of the digits, each times the power of ten of its place, the most significant first. */
  function Worth(s: string): int
    requires AllDigits(s)
  {
    if s == "" then 0 else (s[0] as int - '0' as int) * PowerOfTen(|s| - 1) + Worth(s[1..])
  }

  /** A number with an optional minus sign. */
  function ReadInt(s: string): Option<int> {
    if s != "" && s[0] == '-' && s[1..] != "" && AllDigits(s[1..]) then Some(-Worth(s[1..]))
    else if s != "" && AllDigits(s) then Some(Worth(s))
    else None
  }

  // ---------------------------------------------------------------- one is the inverse of the other

  lemma {:induction false} OneMoreDigit(s: string, c: char)
    requires AllDigits(s) && IsDigit(c)
    ensures AllDigits(s + [c]) && Worth(s + [c]) == 10 * Worth(s) + (c as int - '0' as int)
  {
    var longer := s + [c];
    if s == "" {
      assert longer[1..] == "" && PowerOfTen(0) == 1;
    } else {
      OneMoreDigit(s[1..], c);
      assert longer[1..] == s[1..] + [c];
      TimesTen(s[0] as int - '0' as int, PowerOfTen(|s| - 1));
    }
  }

  lemma TimesTen(d: int, power: int)
    ensures d * (10 * power) == 10 * (d * power)
  {
  }

  /** What is printed is worth the number, and has no leading zero but for zero itself. */
  lemma {:induction false} DecIsWorth(n: nat)
    ensures Dec(n) != "" && AllDigits(Dec(n)) && Worth(Dec(n)) == n
    ensures Dec(n)[0] == '0' ==> n == 0 && |Dec(n)| == 1
  {
    var front, digit := if n < 10 then "" else Dec(n / 10), (n % 10 + '0' as int) as char;
    if n >= 10 {
      DecIsWorth(n / 10);
    }
    OneMoreDigit(front, digit);
  }

  /** Every number reads back, and is printed without superfluous zeros. */
  lemma IntReadsBack(n: int)
    ensures ReadInt(FormatInt(n)) == Some(n)
    ensures var digits := if n < 0 then FormatInt(n)[1..] else FormatInt(n);
      AllDigits(digits) && digits != "" && (digits[0] == '0' ==> digits == "0")
  {
    if n < 0 {
      DecIsWorth(-n);
      assert FormatInt(n)[1..] == Dec(-n);
    } else {
      DecIsWorth(n);
    }
  }
}
